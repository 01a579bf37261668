/** `find_room` of api/src/v1/search/routes.rs: the in-memory version of the
    room search. It loads every block of the candidate rooms, collects the
    rooms of the blocks that meet `[start, end)` under its own comparison
    (bounds reduced to bare timestamps, Unbounded to MIN_UTC or MAX_UTC), and
    keeps the candidates outside that set. */
module SearchRoutes {
  import opened Intervals
  import opened Wrappers
  import opened Models
  import opened Store
  import RoomDomain

  datatype FindRoomQuery = FindRoomQuery(start: Timestamp, end: Timestamp, classId: Option<Uuid>)
  datatype SearchError = InvalidDateRange | InternalError

  /** A block start as a timestamp: Included and Excluded alike give the raw
      timestamp, Unbounded gives MIN_UTC. */
  function BlockStart(b: Bound): (r: Timestamp)
    ensures b.Unbounded? ==> r == MIN_UTC
    ensures LowerKey(b) == At(2 * r) || LowerKey(b) == At(2 * r + 1) || b.Unbounded?
  {
    match b
    case Included(t) => t
    case Excluded(t) => t
    case Unbounded => MIN_UTC
  }

  /** A block end as a timestamp; Unbounded gives MAX_UTC. */
  function BlockEnd(b: Bound): (r: Timestamp)
    ensures b.Unbounded? ==> r == MAX_UTC
    ensures UpperKey(b) == At(2 * r) || UpperKey(b) == At(2 * r + 1) || b.Unbounded?
  {
    match b
    case Included(t) => t
    case Excluded(t) => t
    case Unbounded => MAX_UTC
  }

  /** The handler's overlap test: `block_start < end && block_end > start`.
      For a non-empty block and a valid period it is `&&` on `[start, end)`
      except when the block's end is Included and equal to `start`:
      PostgreSQL counts the shared instant, the handler does not. */
  predicate Hits(block: Block, start: Timestamp, end: Timestamp)
    ensures !IsEmpty(block.interval) && InChronoRange(start) && InChronoRange(end) && start < end ==>
      (Hits(block, start, end) <==> Overlaps(block.interval, HalfOpen(start, end)) && block.interval.hi != Included(start))
  {
    BlockStart(block.interval.lo) < end && BlockEnd(block.interval.hi) > start
  }

  predicate BlockedInMemory(blocks: seq<Block>, roomId: Uuid, start: Timestamp, end: Timestamp) {
    exists b :: b in blocks && b.roomId == roomId && Hits(b, start, end)
  }

  /** `rooms` filtered by the optional class. */
  function Candidates(rooms: seq<Room>, classId: Option<Uuid>): (r: seq<Room>)
    ensures forall x :: x in r <==> x in rooms && RoomDomain.MatchesClass(x, classId)
    ensures RoomDomain.IsSubsequence(r, rooms)
  {
    if rooms == [] then []
    else
      assert rooms == [rooms[0]] + rooms[1..];
      var rest := Candidates(rooms[1..], classId);
      if RoomDomain.MatchesClass(rooms[0], classId) then [rooms[0]] + rest else rest
  }

  /** `blocks WHERE room_id = ANY(ids)`. */
  function BlocksOfRooms(blocks: seq<Block>, ids: set<Uuid>): (r: seq<Block>)
    ensures forall b :: b in r <==> b in blocks && b.roomId in ids
  {
    if blocks == [] then []
    else
      assert blocks == [blocks[0]] + blocks[1..];
      var rest := BlocksOfRooms(blocks[1..], ids);
      if blocks[0].roomId in ids then [blocks[0]] + rest else rest
  }

  /** The candidates whose id is not in `blocked`, in candidate order. */
  function Unblocked(candidates: seq<Room>, blocked: set<Uuid>): (r: seq<Room>)
    ensures forall x :: x in r <==> x in candidates && x.id !in blocked
    ensures RoomDomain.IsSubsequence(r, candidates)
  {
    if candidates == [] then []
    else
      assert candidates == [candidates[0]] + candidates[1..];
      var rest := Unblocked(candidates[1..], blocked);
      if candidates[0].id !in blocked then [candidates[0]] + rest else rest
  }

  /** The reference answer: the candidates no block hits, in candidate order. */
  function FreeInMemory(candidates: seq<Room>, blocks: seq<Block>, start: Timestamp, end: Timestamp): (r: seq<Room>)
    ensures forall x :: x in r <==> x in candidates && !BlockedInMemory(blocks, x.id, start, end)
    ensures RoomDomain.IsSubsequence(r, candidates)
  {
    if candidates == [] then []
    else
      assert candidates == [candidates[0]] + candidates[1..];
      var rest := FreeInMemory(candidates[1..], blocks, start, end);
      if !BlockedInMemory(blocks, candidates[0].id, start, end) then [candidates[0]] + rest else rest
  }

  /** The handler's answer: the range check first, then the connection, then
      the summaries of the unblocked candidates. */
  function FindRoomResult(query: FindRoomQuery, poolOk: bool, rooms: seq<Room>, blocks: seq<Block>): (res: Result<seq<RoomDomain.RoomSummary>, SearchError>)
    ensures res == Err(InvalidDateRange) <==> query.start >= query.end
    ensures res == Err(InternalError) <==> query.start < query.end && !poolOk
    ensures res.Ok? ==> forall s :: s in res.value <==>
      exists room :: room in rooms && s == RoomDomain.Summarize(room) && RoomDomain.MatchesClass(room, query.classId)
        && !BlockedInMemory(blocks, room.id, query.start, query.end)
  {
    if query.start >= query.end then Err(InvalidDateRange)
    else if !poolOk then Err(InternalError)
    else Ok(RoomDomain.Summaries(FreeInMemory(Candidates(rooms, query.classId), blocks, query.start, query.end)))
  }

  /** Two filters that decide every element alike give the same sequence. */
  lemma {:induction false} UnblockedIsFreeInMemory(candidates: seq<Room>, blocked: set<Uuid>, blocks: seq<Block>, start: Timestamp, end: Timestamp)
    requires forall x :: x in candidates ==> (x.id in blocked <==> BlockedInMemory(blocks, x.id, start, end))
    ensures Unblocked(candidates, blocked) == FreeInMemory(candidates, blocks, start, end)
  {
    if candidates != [] {
      assert candidates[0] in candidates;
      UnblockedIsFreeInMemory(candidates[1..], blocked, blocks, start, end);
    }
  }

  method FindRoom(query: FindRoomQuery, poolOk: bool, rooms: seq<Room>, blocks: seq<Block>) returns (res: Result<seq<RoomDomain.RoomSummary>, SearchError>)
    ensures res == FindRoomResult(query, poolOk, rooms, blocks)
    ensures res.Ok? ==> forall s :: s in res.value ==>
      exists room :: room in rooms && s == RoomDomain.Summarize(room) && RoomDomain.MatchesClass(room, query.classId)
    ensures res.Ok? && Candidates(rooms, query.classId) == [] ==> res.value == []
  {
    if query.start >= query.end {
      return Err(InvalidDateRange);
    }
    if !poolOk {
      return Err(InternalError);
    }
    var candidates := Candidates(rooms, query.classId);
    if candidates == [] {
      return Ok([]);
    }
    var roomIds := set r | r in candidates :: r.id;
    var existing := BlocksOfRooms(blocks, roomIds);

    var blocked: set<Uuid> := {};
    for i := 0 to |existing|
      invariant blocked == set j | 0 <= j < i && Hits(existing[j], query.start, query.end) :: existing[j].roomId
    {
      var block := existing[i];
      var blockStart := match block.interval.lo
        case Included(t) => t
        case Excluded(t) => t
        case Unbounded => MIN_UTC;
      var blockEnd := match block.interval.hi
        case Included(t) => t
        case Excluded(t) => t
        case Unbounded => MAX_UTC;
      if blockStart < query.end && blockEnd > query.start {
        blocked := blocked + {block.roomId};
      }
    }

    forall x | x in candidates
      ensures x.id in blocked <==> BlockedInMemory(blocks, x.id, query.start, query.end)
    {
      if BlockedInMemory(blocks, x.id, query.start, query.end) {
        var b :| b in blocks && b.roomId == x.id && Hits(b, query.start, query.end);
        assert b in existing;
        var j :| 0 <= j < |existing| && existing[j] == b;
      }
    }
    UnblockedIsFreeInMemory(candidates, blocked, blocks, query.start, query.end);
    var available := Unblocked(candidates, blocked);
    res := Ok(RoomDomain.Summaries(available));
    forall s | s in res.value
      ensures exists room :: room in rooms && s == RoomDomain.Summarize(room) && RoomDomain.MatchesClass(room, query.classId)
    {
      var k :| 0 <= k < |available| && RoomDomain.Summaries(available)[k] == s;
      assert available[k] in available;
    }
  }

  /** Which blocks were loaded matters, not the order the loop visits them. */
  lemma VisitOrderIrrelevant(query: FindRoomQuery, poolOk: bool, rooms: seq<Room>, blocks: seq<Block>, permuted: seq<Block>)
    requires multiset(blocks) == multiset(permuted)
    ensures FindRoomResult(query, poolOk, rooms, blocks) == FindRoomResult(query, poolOk, rooms, permuted)
  {
    var candidates := Candidates(rooms, query.classId);
    forall x | x in candidates
      ensures BlockedInMemory(blocks, x.id, query.start, query.end) <==> BlockedInMemory(permuted, x.id, query.start, query.end)
    {
      assert forall b :: b in blocks <==> b in multiset(blocks);
      assert forall b :: b in permuted <==> b in multiset(permuted);
    }
    var blocked := set b | b in blocks && Hits(b, query.start, query.end) :: b.roomId;
    UnblockedIsFreeInMemory(candidates, blocked, blocks, query.start, query.end);
    UnblockedIsFreeInMemory(candidates, blocked, permuted, query.start, query.end);
  }

  // ---------------------------------------------------------------------
  // Against the database search.

  /** The handler's test with the inclusive end taken into account. */
  predicate HitsCorrected(block: Block, start: Timestamp, end: Timestamp) {
    BlockStart(block.interval.lo) < end
      && (BlockEnd(block.interval.hi) > start || block.interval.hi == Included(start))
  }

  lemma HitsCorrectedIsOverlaps(block: Block, start: Timestamp, end: Timestamp)
    requires !IsEmpty(block.interval)
    requires InChronoRange(start) && InChronoRange(end) && start < end
    ensures HitsCorrected(block, start, end) <==> Overlaps(block.interval, HalfOpen(start, end))
  {
  }

  /** Where no block ends Included at the query start, the in-memory search
      returns exactly what the database search returns (in table order). */
  lemma {:induction false} FreeInMemoryIsFreeRooms(rooms: seq<Room>, blocks: seq<Block>, classId: Option<Uuid>, start: Timestamp, end: Timestamp)
    requires InChronoRange(start) && InChronoRange(end) && start < end
    requires forall b :: b in blocks ==> !IsEmpty(b.interval) && b.interval.hi != Included(start)
    ensures FreeInMemory(Candidates(rooms, classId), blocks, start, end)
      == RoomDomain.FreeRooms(rooms, blocks, classId, HalfOpen(start, end))
  {
    if rooms != [] {
      FreeInMemoryIsFreeRooms(rooms[1..], blocks, classId, start, end);
      var x := rooms[0];
      assert BlockedInMemory(blocks, x.id, start, end) <==> ConflictsWith(blocks, x.id, HalfOpen(start, end));
    }
  }

  lemma FindRoomAgreesWithFind(query: FindRoomQuery, poolOk: bool, rooms: seq<Room>, blocks: seq<Block>)
    requires InChronoRange(query.start) && InChronoRange(query.end)
    requires forall b :: b in blocks ==> !IsEmpty(b.interval) && b.interval.hi != Included(query.start)
    ensures var inMemory := FindRoomResult(query, poolOk, rooms, blocks);
      var database := RoomDomain.Find(RoomDomain.FindRoomOptions(query.start, query.end, query.classId), poolOk, rooms, blocks);
      && (inMemory == Err(InvalidDateRange) <==> database == Err(RoomDomain.FindRoomError.InvalidDateRange))
      && (inMemory == Err(InternalError) <==> database == Err(RoomDomain.FindRoomError.InternalError))
      && (inMemory.Ok? ==> database.Ok? && inMemory.value == database.value)
  {
    if query.start < query.end {
      FreeInMemoryIsFreeRooms(rooms, blocks, query.classId, query.start, query.end);
    }
  }

  /** The second divergence: a block with no points strictly inside the
      period (`[t, t)`, which the store accepts since it is not reversed)
      blocks its room in memory but overlaps nothing in the database. */
  lemma EmptyBlockDiverges(s: Timestamp, room: Room)
    requires InChronoRange(s) && InChronoRange(s + 7200_000000000)
    ensures var t := s + 3600_000000000;
      var blocks := [Block(1, room.id, HalfOpen(t, t))];
      && FindRoomResult(FindRoomQuery(s, s + 7200_000000000, None), true, [room], blocks) == Ok([])
      && RoomDomain.Find(RoomDomain.FindRoomOptions(s, s + 7200_000000000, None), true, [room], blocks) == Ok([RoomDomain.Summarize(room)])
  {
    var t := s + 3600_000000000;
    var block := Block(1, room.id, HalfOpen(t, t));
    assert Candidates([room], None) == [room];
    assert BlockedInMemory([block], room.id, s, s + 7200_000000000);
    assert FreeInMemory([room], [block], s, s + 7200_000000000) == [];
    assert !ConflictsWith([block], room.id, HalfOpen(s, s + 7200_000000000));
    assert RoomDomain.FreeRooms([room], [block], None, HalfOpen(s, s + 7200_000000000)) == [room];
    assert RoomDomain.Summaries([room]) == [RoomDomain.Summarize(room)];
    assert RoomDomain.Summaries([]) == [];
  }

  /** The first divergence: a room whose only block is `[s - 1h, s]` is free for
      `[s, s + 1h)` in memory but blocked in the database. */
  lemma ClosedTouchDiverges(s: Timestamp, room: Room)
    requires InChronoRange(s) && InChronoRange(s + 3600_000000000) && InChronoRange(s - 3600_000000000)
    ensures var query := FindRoomQuery(s, s + 3600_000000000, None);
      var blocks := [Block(1, room.id, Interval(Included(s - 3600_000000000), Included(s)))];
      && FindRoomResult(query, true, [room], blocks) == Ok([RoomDomain.Summarize(room)])
      && RoomDomain.Find(RoomDomain.FindRoomOptions(s, s + 3600_000000000, None), true, [room], blocks) == Ok([])
  {
    var query := FindRoomQuery(s, s + 3600_000000000, None);
    var block := Block(1, room.id, Interval(Included(s - 3600_000000000), Included(s)));
    assert Candidates([room], None) == [room];
    assert !BlockedInMemory([block], room.id, s, s + 3600_000000000);
    assert ConflictsWith([block], room.id, HalfOpen(s, s + 3600_000000000));
    assert FreeInMemory([room], [block], s, s + 3600_000000000) == [room];
    assert RoomDomain.Summaries([room]) == [RoomDomain.Summarize(room)];
    assert RoomDomain.FreeRooms([room], [block], None, HalfOpen(s, s + 3600_000000000)) == [];
    assert RoomDomain.Summaries([]) == [];
  }
}
