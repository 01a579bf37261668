/** The room operations of infra/src/domains/room/mod.rs that the interval
    core decides: `list` (staff check and paging), `get_availability`
    (overlap lookup, classification, widening) and `find` (rooms with no
    block overlapping a half-open period). Each takes the database tables as
    values and `poolOk`, whether a pooled connection could be had. */
module RoomDomain {
  import opened Intervals
  import opened Wrappers
  import opened Models
  import opened Store
  import opened Calendar

  /** `a` is `b` with some elements left out, order kept. */
  predicate IsSubsequence<T(==)>(a: seq<T>, b: seq<T>)
    decreases |b|
  {
    if b == [] then a == []
    else (a != [] && a[0] == b[0] && IsSubsequence(a[1..], b[1..])) || IsSubsequence(a, b[1..])
  }

  // ---------------------------------------------------------------------
  // list

  datatype ListRoomOptions = ListRoomOptions(search: Option<string>, page: int, perPage: int)
  datatype ListRoomSuccess = ListRoomSuccess(rooms: seq<Room>, total: nat)
  datatype ListRoomError = Unauthorized | InternalError

  predicate IsSubstring(needle: string, haystack: string) {
    exists i :: 0 <= i <= |haystack| && needle <= haystack[i..]
  }

  /** `label ILIKE '%search%'`, taken as a plain substring test. */
  predicate MatchesSearch(room: Room, search: Option<string>) {
    search.None? || IsSubstring(search.value, room.labelText)
  }

  function Searched(rooms: seq<Room>, search: Option<string>): (r: seq<Room>)
    ensures forall x :: x in r <==> x in rooms && MatchesSearch(x, search)
    ensures IsSubsequence(r, rooms)
  {
    if rooms == [] then []
    else
      assert rooms == [rooms[0]] + rooms[1..];
      if MatchesSearch(rooms[0], search) then [rooms[0]] + Searched(rooms[1..], search)
      else Searched(rooms[1..], search)
  }

  /** The LIMIT and OFFSET of a page: both clamped to at least 1 first, so
      the offset is never negative and a page below 1 is the first page. */
  function PageWindow(page: int, perPage: int): (w: (nat, nat))
    ensures w.1 >= 1 && w.1 == (if perPage < 1 then 1 else perPage)
    ensures w.0 == (if page < 1 then 0 else (page - 1) * w.1)
  {
    var page := if page < 1 then 1 else page;
    var perPage := if perPage < 1 then 1 else perPage;
    ((page - 1) * perPage, perPage)
  }

  /** `LIMIT limit OFFSET offset`. */
  function Slice<T>(s: seq<T>, offset: nat, limit: nat): (r: seq<T>)
    ensures |r| <= limit
    ensures |r| == (if offset >= |s| then 0 else if |s| - offset < limit then |s| - offset else limit)
    ensures forall i :: 0 <= i < |r| ==> r[i] == s[offset + i]
  {
    if offset >= |s| then []
    else if |s| - offset < limit then s[offset..]
    else s[offset..offset + limit]
  }

  function List(user: SessionUser, poolOk: bool, options: ListRoomOptions, rooms: seq<Room>): (res: Result<ListRoomSuccess, ListRoomError>)
    ensures res == Err(ListRoomError.Unauthorized) <==> user.staffId.None?
    ensures res == Err(ListRoomError.InternalError) <==> user.staffId.Some? && !poolOk
    ensures res.Ok? ==> res.value.total == |Searched(rooms, options.search)|
    ensures res.Ok? ==> |res.value.rooms| <= PageWindow(options.page, options.perPage).1
    ensures res.Ok? ==> forall x :: x in res.value.rooms ==> x in rooms && MatchesSearch(x, options.search)
    ensures res.Ok? ==> var w := PageWindow(options.page, options.perPage);
      res.value.rooms == Slice(Searched(rooms, options.search), w.0, w.1)
  {
    if user.staffId.None? then Err(ListRoomError.Unauthorized)
    else if !poolOk then Err(ListRoomError.InternalError)
    else
      var matching := Searched(rooms, options.search);
      var (offset, limit) := PageWindow(options.page, options.perPage);
      Ok(ListRoomSuccess(Slice(matching, offset, limit), |matching|))
  }

  lemma DivMod(i: int, p: int)
    requires 0 <= i && p >= 1
    ensures 0 <= i / p && 0 <= i % p < p && i == (i / p) * p + i % p
  {
  }

  /** Under the table order the model assumes for rows with no ORDER BY,
      paging loses and repeats nothing: the i-th matching room is on page
      i / perPage + 1, at position i % perPage. */
  lemma EveryRoomIsOnItsPage(user: SessionUser, rooms: seq<Room>, search: Option<string>, perPage: int, i: int)
    requires user.staffId.Some? && perPage >= 1
    requires 0 <= i < |Searched(rooms, search)|
    ensures var res := List(user, true, ListRoomOptions(search, i / perPage + 1, perPage), rooms);
      res.Ok? && i % perPage < |res.value.rooms| && res.value.rooms[i % perPage] == Searched(rooms, search)[i]
  {
    var matching := Searched(rooms, search);
    var q, m := i / perPage, i % perPage;
    DivMod(i, perPage);
    var w := PageWindow(q + 1, perPage);
    assert w == (q * perPage, perPage);
    var page := Slice(matching, q * perPage, perPage);
    assert List(user, true, ListRoomOptions(search, q + 1, perPage), rooms) == Ok(ListRoomSuccess(page, |matching|));
    assert m < |page|;
  }

  // ---------------------------------------------------------------------
  // get_availability

  datatype GetAvailabilityOptions = GetAvailabilityOptions(roomId: Uuid, start: Timestamp, end: Timestamp)
  datatype GetAvailabilitySuccess = GetAvailabilitySuccess(roomId: Uuid, period: Interval, blocks: seq<CalendarBlock>)
  datatype GetAvailabilityError = Unauthorized | InternalError | NotFound

  lemma SameIdsAndPeriods(r: seq<CalendarBlock>, o: seq<Block>)
    requires |r| == |o| && forall i :: 0 <= i < |r| ==> r[i].id == o[i].id && r[i].period == o[i].interval
    ensures forall c :: c in r ==> exists b :: b in o && c.id == b.id && c.period == b.interval
    ensures forall b :: b in o ==> exists c :: c in r && c.id == b.id && c.period == b.interval
  {
    forall c | c in r ensures exists b :: b in o && c.id == b.id && c.period == b.interval {
      var i :| 0 <= i < |r| && r[i] == c;
      assert o[i] in o;
    }
    forall b | b in o ensures exists c :: c in r && c.id == b.id && c.period == b.interval {
      var i :| 0 <= i < |o| && o[i] == b;
      assert r[i] in r;
    }
  }

  /** The calendar of a room over `query`: its overlapping blocks ascending
      by interval, classified, with the query widened to them. */
  function CalendarOf(blocks: seq<Block>, bookings: map<Uuid, Booking>, maintenance: map<Uuid, Maintenance>, roomId: Uuid, query: Interval): (r: seq<CalendarBlock>)
    ensures |r| == |OverlappingBlocks(blocks, roomId, query)|
    ensures forall i :: 0 <= i < |r| ==>
      var b := OverlappingBlocks(blocks, roomId, query)[i];
      && r[i].id == b.id && r[i].period == b.interval
      && (r[i].kind == BlockKind.Booking <==> b.id in bookings)
      && (r[i].kind == BlockKind.Maintenance <==> b.id !in bookings && b.id in maintenance)
      && r[i].labelText == (if b.id in bookings then Some(bookings[b.id].status.Name())
                            else if b.id in maintenance then Some(maintenance[b.id].kind.Name())
                            else None)
    ensures forall c :: c in r ==>
      exists b :: b in blocks && Matches(b, roomId, query) && c.id == b.id && c.period == b.interval
    ensures forall b :: b in blocks && Matches(b, roomId, query) ==>
      exists c :: c in r && c.id == b.id && c.period == b.interval
  {
    var o := OverlappingBlocks(blocks, roomId, query);
    var r := ClassifyAll(JoinAll(o, bookings, maintenance));
    SameIdsAndPeriods(r, o);
    r
  }

  /** The staff check comes first; then the connection; a period whose start
      is after its end cannot be built into a range, and the failed load is
      reported as NotFound. */
  function GetAvailability(user: SessionUser, poolOk: bool, options: GetAvailabilityOptions, blocks: seq<Block>, bookings: map<Uuid, Booking>, maintenance: map<Uuid, Maintenance>): (res: Result<GetAvailabilitySuccess, GetAvailabilityError>)
    ensures res == Err(GetAvailabilityError.Unauthorized) <==> user.staffId.None?
    ensures res == Err(GetAvailabilityError.InternalError) <==> user.staffId.Some? && !poolOk
    ensures res == Err(GetAvailabilityError.NotFound) <==> user.staffId.Some? && poolOk && options.start > options.end
    ensures res.Ok? ==>
      var query := HalfOpen(options.start, options.end);
      && res.value.roomId == options.roomId
      && (forall c :: c in res.value.blocks ==>
            exists b :: b in blocks && Matches(b, options.roomId, query) && c.id == b.id && c.period == b.interval)
      && (forall b :: b in blocks && Matches(b, options.roomId, query) ==>
            exists c :: c in res.value.blocks && c.id == b.id && c.period == b.interval)
      && (res.value.blocks == [] ==> res.value.period == query)
      && LowerCmp(res.value.period.lo, query.lo) != Greater
      && UpperCmp(res.value.period.hi, query.hi) != Less
    ensures res.Ok? ==>
      var query := HalfOpen(options.start, options.end);
      && res.value.blocks == CalendarOf(blocks, bookings, maintenance, options.roomId, query)
      && res.value.period == Widen(query, res.value.blocks)
  {
    if user.staffId.None? then Err(GetAvailabilityError.Unauthorized)
    else if !poolOk then Err(GetAvailabilityError.InternalError)
    else
      var period := HalfOpen(options.start, options.end);
      if Reversed(period) then Err(GetAvailabilityError.NotFound)
      else
        var calendar := CalendarOf(blocks, bookings, maintenance, options.roomId, period);
        Ok(GetAvailabilitySuccess(options.roomId, Widen(period, calendar), calendar))
  }

  /** On a table that keeps its exclusion constraint, the returned period
      holds the whole query period and the whole of every returned block. */
  lemma GetAvailabilityCoversBlocks(user: SessionUser, options: GetAvailabilityOptions, blocks: seq<Block>, bookings: map<Uuid, Booking>, maintenance: map<Uuid, Maintenance>, k: int)
    requires NoOverlap(blocks)
    requires GetAvailability(user, true, options, blocks, bookings, maintenance).Ok?
    ensures var res := GetAvailability(user, true, options, blocks, bookings, maintenance).value;
      && (Contains(HalfOpen(options.start, options.end), k) ==> Contains(res.period, k))
      && (forall c :: c in res.blocks && Contains(c.period, k) ==> Contains(res.period, k))
  {
    var query := HalfOpen(options.start, options.end);
    var calendar := CalendarOf(blocks, bookings, maintenance, options.roomId, query);
    var r := OverlappingBlocks(blocks, options.roomId, query);
    assert GetAvailability(user, true, options, blocks, bookings, maintenance).value
      == GetAvailabilitySuccess(options.roomId, Widen(query, calendar), calendar);
    forall i, j | 0 <= i <= j < |calendar|
      ensures LowerCmp(calendar[i].period.lo, calendar[j].period.lo) != Greater
        && UpperCmp(calendar[i].period.hi, calendar[j].period.hi) != Greater
    {
      assert calendar[i].period == r[i].interval && calendar[j].period == r[j].interval;
      OverlappingBlocksOrdered(blocks, options.roomId, query, i, j);
    }
    WidenCoversEveryBlock(query, calendar, k);
  }

  // ---------------------------------------------------------------------
  // find

  datatype FindRoomOptions = FindRoomOptions(start: Timestamp, end: Timestamp, classId: Option<Uuid>)
  datatype RoomSummary = RoomSummary(id: Uuid, labelText: string, classId: Uuid)
  datatype FindRoomError = InternalError | InvalidDateRange

  predicate MatchesClass(room: Room, classId: Option<Uuid>) {
    classId.None? || room.classId == classId.value
  }

  function Summarize(room: Room): RoomSummary {
    RoomSummary(room.id, room.labelText, room.classId)
  }

  function Summaries(rooms: seq<Room>): (r: seq<RoomSummary>)
    ensures |r| == |rooms| && forall i :: 0 <= i < |r| ==> r[i] == Summarize(rooms[i])
    ensures forall s :: s in r <==> exists room :: room in rooms && s == Summarize(room)
  {
    var r := seq(|rooms|, i requires 0 <= i < |rooms| => Summarize(rooms[i]));
    assert forall s :: s in r <==> exists room :: room in rooms && s == Summarize(room) by {
      forall s | s in r ensures exists room :: room in rooms && s == Summarize(room) {
        var i :| 0 <= i < |r| && r[i] == s;
        assert rooms[i] in rooms;
      }
      forall s | (exists room :: room in rooms && s == Summarize(room)) ensures s in r {
        var room :| room in rooms && s == Summarize(room);
        var i :| 0 <= i < |rooms| && rooms[i] == room;
        assert r[i] == s;
      }
    }
    r
  }

  /** `rooms WHERE class_id = ? AND NOT EXISTS (blocks of the room && [start, end))`,
      in table order. */
  function FreeRooms(rooms: seq<Room>, blocks: seq<Block>, classId: Option<Uuid>, period: Interval): (r: seq<Room>)
    ensures forall x :: x in r <==> x in rooms && MatchesClass(x, classId) && !ConflictsWith(blocks, x.id, period)
    ensures IsSubsequence(r, rooms)
  {
    if rooms == [] then []
    else
      assert rooms == [rooms[0]] + rooms[1..];
      var rest := FreeRooms(rooms[1..], blocks, classId, period);
      if MatchesClass(rooms[0], classId) && !ConflictsWith(blocks, rooms[0].id, period) then [rooms[0]] + rest
      else rest
  }

  function Find(options: FindRoomOptions, poolOk: bool, rooms: seq<Room>, blocks: seq<Block>): (res: Result<seq<RoomSummary>, FindRoomError>)
    ensures res == Err(FindRoomError.InvalidDateRange) <==> options.start >= options.end
    ensures res == Err(FindRoomError.InternalError) <==> options.start < options.end && !poolOk
    ensures res.Ok? ==> forall s :: s in res.value <==>
      exists room :: room in rooms && s == Summarize(room) && MatchesClass(room, options.classId)
        && !ConflictsWith(blocks, room.id, HalfOpen(options.start, options.end))
  {
    if options.start >= options.end then Err(FindRoomError.InvalidDateRange)
    else if !poolOk then Err(FindRoomError.InternalError)
    else
      var free := FreeRooms(rooms, blocks, options.classId, HalfOpen(options.start, options.end));
      Ok(Summaries(free))
  }
}
