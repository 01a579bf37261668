/** The `blocks` table: the ordering `ORDER BY interval` sorts by, the
    overlap query every read uses, and the insert that the table's exclusion
    constraint turns into an atomic check-and-insert (the behaviour
    infra/tests/concurrency_test.rs observes). */
module Store {
  import opened Intervals
  import opened Wrappers
  import opened Models

  // ---------------------------------------------------------------------
  // ORDER BY interval: PostgreSQL orders ranges by lower bound, then by
  // upper bound, with the same tie rules as LowerBound and UpperBound.

  function RangeCmp(a: Interval, b: Interval): (r: Ordering)
    ensures r == Equal <==> a == b
    ensures a.lo != b.lo ==> r == LowerCmp(a.lo, b.lo)
  {
    LowerCmp(a.lo, b.lo).Then(UpperCmp(a.hi, b.hi))
  }

  lemma RangeCmpIsTotalOrder(a: Interval, b: Interval, c: Interval)
    ensures RangeCmp(b, a) == RangeCmp(a, b).Reverse()
    ensures RangeCmp(a, b) != Greater && RangeCmp(b, c) != Greater ==> RangeCmp(a, c) != Greater
  {
    LowerCmpIsTotalOrder(a.lo, b.lo, c.lo);
    UpperCmpIsTotalOrder(a.hi, b.hi, c.hi);
  }

  predicate Sorted(s: seq<Block>) {
    forall i, j :: 0 <= i < j < |s| ==> RangeCmp(s[i].interval, s[j].interval) != Greater
  }

  function InsertByInterval(b: Block, s: seq<Block>): (r: seq<Block>)
    ensures multiset(r) == multiset(s) + multiset{b}
  {
    if s == [] then [b]
    else if RangeCmp(b.interval, s[0].interval) != Greater then [b] + s
    else
      assert s == [s[0]] + s[1..];
      [s[0]] + InsertByInterval(b, s[1..])
  }

  lemma {:induction false} InsertKeepsSorted(b: Block, s: seq<Block>)
    requires Sorted(s)
    ensures Sorted(InsertByInterval(b, s))
  {
    if s == [] {
    } else if RangeCmp(b.interval, s[0].interval) != Greater {
      var r := InsertByInterval(b, s);
      forall i, j | 0 <= i < j < |r|
        ensures RangeCmp(r[i].interval, r[j].interval) != Greater
      {
        if i == 0 && j > 1 {
          RangeCmpIsTotalOrder(b.interval, s[0].interval, s[j - 1].interval);
        }
      }
    } else {
      InsertKeepsSorted(b, s[1..]);
      var rest := InsertByInterval(b, s[1..]);
      var r := [s[0]] + rest;
      assert s == [s[0]] + s[1..];
      RangeCmpIsTotalOrder(b.interval, s[0].interval, s[0].interval);
      forall j | 0 <= j < |rest|
        ensures RangeCmp(s[0].interval, rest[j].interval) != Greater
      {
        assert rest[j] in multiset(rest);
        if rest[j] != b {
          assert rest[j] in multiset(s[1..]);
          var k :| 0 <= k < |s[1..]| && s[1..][k] == rest[j];
          assert s[k + 1] == rest[j];
        }
      }
      forall i, j | 0 <= i < j < |r|
        ensures RangeCmp(r[i].interval, r[j].interval) != Greater
      {
        if i == 0 {
          assert r[j] == rest[j - 1];
        } else {
          assert r[i] == rest[i - 1] && r[j] == rest[j - 1];
        }
      }
    }
  }

  /** `ORDER BY interval ASC`, as an insertion sort. */
  function SortByInterval(s: seq<Block>): (r: seq<Block>)
    ensures multiset(r) == multiset(s)
  {
    if s == [] then []
    else
      assert s == [s[0]] + s[1..];
      InsertByInterval(s[0], SortByInterval(s[1..]))
  }

  lemma {:induction false} SortIsSorted(s: seq<Block>)
    ensures Sorted(SortByInterval(s))
  {
    if s != [] {
      SortIsSorted(s[1..]);
      InsertKeepsSorted(s[0], SortByInterval(s[1..]));
    }
  }

  // ---------------------------------------------------------------------
  // The overlap query:
  //   SELECT * FROM blocks WHERE room_id = ? AND interval && ? ORDER BY interval

  predicate Matches(b: Block, roomId: Uuid, period: Interval) {
    b.roomId == roomId && Overlaps(b.interval, period)
  }

  /** The rows of the room whose interval overlaps `period`, in table order. */
  function Matching(blocks: seq<Block>, roomId: Uuid, period: Interval): (r: seq<Block>)
    ensures forall b :: multiset(r)[b] == if Matches(b, roomId, period) then multiset(blocks)[b] else 0
    ensures forall b :: b in r <==> b in blocks && Matches(b, roomId, period)
  {
    if blocks == [] then []
    else
      assert blocks == [blocks[0]] + blocks[1..];
      assert multiset(blocks) == multiset{blocks[0]} + multiset(blocks[1..]);
      var rest := Matching(blocks[1..], roomId, period);
      var r := (if Matches(blocks[0], roomId, period) then [blocks[0]] else []) + rest;
      assert multiset(r) == (if Matches(blocks[0], roomId, period) then multiset{blocks[0]} else multiset{}) + multiset(rest);
      r
  }

  /** The blocks of a room overlapping a period, ascending by interval. */
  function OverlappingBlocks(blocks: seq<Block>, roomId: Uuid, period: Interval): (r: seq<Block>)
    ensures multiset(r) == multiset(Matching(blocks, roomId, period))
    ensures forall b :: b in r <==> b in blocks && Matches(b, roomId, period)
    ensures Sorted(r)
  {
    var m := Matching(blocks, roomId, period);
    SortIsSorted(m);
    var r := SortByInterval(m);
    assert forall b :: b in r <==> b in multiset(r);
    r
  }

  // ---------------------------------------------------------------------
  // The exclusion constraint.

  /** No two blocks of the same room overlap. */
  predicate NoOverlap(blocks: seq<Block>) {
    forall i, j :: 0 <= i < |blocks| && 0 <= j < |blocks| && i != j && blocks[i].roomId == blocks[j].roomId
      ==> !Overlaps(blocks[i].interval, blocks[j].interval)
  }

  /** `id` is the primary key of `blocks`. */
  predicate IdsUnique(blocks: seq<Block>) {
    forall i, j :: 0 <= i < j < |blocks| ==> blocks[i].id != blocks[j].id
  }

  lemma NoOverlapOnValues(blocks: seq<Block>, x: Block, y: Block)
    requires NoOverlap(blocks)
    requires x in blocks && y in blocks && x != y && x.roomId == y.roomId
    ensures !Overlaps(x.interval, y.interval)
  {
    var i :| 0 <= i < |blocks| && blocks[i] == x;
    var j :| 0 <= j < |blocks| && blocks[j] == y;
  }

  /** For blocks ordered by lower bound that pairwise do not overlap, the
      upper bounds ascend too: the last block ends last. */
  lemma {:induction false} DisjointEndsAscend(r: seq<Block>, i: int, j: int)
    requires forall p, q :: 0 <= p < q < |r| ==> LowerCmp(r[p].interval.lo, r[q].interval.lo) != Greater
    requires forall x, y :: x in r && y in r && x != y ==> !Overlaps(x.interval, y.interval)
    requires forall x :: x in r ==> !IsEmpty(x.interval)
    requires 0 <= i < j < |r|
    ensures UpperCmp(r[i].interval.hi, r[j].interval.hi) != Greater
  {
    var a, b := r[i].interval, r[j].interval;
    UpperCmpIsKeyOrder(a.hi, b.hi);
    if r[i] != r[j] {
      assert !Overlaps(a, b);
      LowerCmpIsKeyOrder(a.lo, b.lo);
      BeforeIsKeyOrder(a.lo, a.hi);
      BeforeIsKeyOrder(b.lo, b.hi);
      BeforeIsKeyOrder(a.lo, b.hi);
      BeforeIsKeyOrder(b.lo, a.hi);
      PointCmpIsTotalOrder(LowerKey(a.lo), LowerKey(b.lo), UpperKey(b.hi));
      assert Before(a.lo, b.hi);
      PointCmpIsTotalOrder(UpperKey(a.hi), LowerKey(b.lo), UpperKey(b.hi));
    }
  }

  /** On a table that keeps the constraint, the overlap query returns blocks
      ascending by lower bound AND by upper bound, so its first block starts
      first and its last block ends last. */
  lemma OverlappingBlocksOrdered(blocks: seq<Block>, roomId: Uuid, period: Interval, i: int, j: int)
    requires NoOverlap(blocks)
    requires 0 <= i <= j < |OverlappingBlocks(blocks, roomId, period)|
    ensures var r := OverlappingBlocks(blocks, roomId, period);
      LowerCmp(r[i].interval.lo, r[j].interval.lo) != Greater
      && UpperCmp(r[i].interval.hi, r[j].interval.hi) != Greater
  {
    var r := OverlappingBlocks(blocks, roomId, period);
    LowerCmpIsTotalOrder(r[i].interval.lo, r[j].interval.lo, r[j].interval.lo);
    UpperCmpIsTotalOrder(r[i].interval.hi, r[j].interval.hi, r[j].interval.hi);
    if i < j {
      forall p, q | 0 <= p < q < |r|
        ensures LowerCmp(r[p].interval.lo, r[q].interval.lo) != Greater
      {
        assert RangeCmp(r[p].interval, r[q].interval) != Greater;
      }
      forall x, y | x in r && y in r && x != y
        ensures !Overlaps(x.interval, y.interval)
      {
        NoOverlapOnValues(blocks, x, y);
      }
      DisjointEndsAscend(r, i, j);
    }
  }

  // ---------------------------------------------------------------------
  // The table itself.

  /** How PostgreSQL refuses an `INSERT INTO blocks`. */
  datatype InsertError =
    | InvalidRange   // lower bound above upper bound: the range cannot be built
    | DuplicateId    // primary key violation
    | Conflict       // exclusion constraint violation: overlaps a block of the room
    | UnknownRoom    // foreign key violation: no such room

  predicate HasId(blocks: seq<Block>, id: Uuid) {
    exists b :: b in blocks && b.id == id
  }

  predicate ConflictsWith(blocks: seq<Block>, roomId: Uuid, interval: Interval) {
    exists b :: b in blocks && b.roomId == roomId && Overlaps(b.interval, interval)
  }

  function RoomIds(rooms: seq<Room>): set<Uuid> {
    set r | r in rooms :: r.id
  }

  /** The outcome the database gives an insert, checks in the order it runs
      them: building the range, the primary key, the exclusion constraint,
      then the foreign key at the end of the statement. */
  function InsertOutcome(rooms: seq<Room>, blocks: seq<Block>, nb: NewBlock, generatedId: Uuid): (r: Result<Block, InsertError>)
    ensures r.Ok? <==> !Reversed(nb.interval) && !HasId(blocks, if nb.id.Some? then nb.id.value else generatedId) && !ConflictsWith(blocks, nb.roomId, nb.interval) && nb.roomId in RoomIds(rooms)
    ensures r.Ok? ==> r.value == Block(if nb.id.Some? then nb.id.value else generatedId, nb.roomId, nb.interval)
    ensures r == Err(Conflict) ==> ConflictsWith(blocks, nb.roomId, nb.interval)
  {
    var id := if nb.id.Some? then nb.id.value else generatedId;
    if Reversed(nb.interval) then Err(InvalidRange)
    else if HasId(blocks, id) then Err(DuplicateId)
    else if ConflictsWith(blocks, nb.roomId, nb.interval) then Err(Conflict)
    else if nb.roomId !in RoomIds(rooms) then Err(UnknownRoom)
    else Ok(Block(id, nb.roomId, nb.interval))
  }

  /** Inserting the outcome of a successful insert keeps the constraint and the key. */
  lemma InsertOutcomeKeepsInvariant(rooms: seq<Room>, blocks: seq<Block>, nb: NewBlock, generatedId: Uuid)
    requires NoOverlap(blocks) && IdsUnique(blocks)
    requires InsertOutcome(rooms, blocks, nb, generatedId).Ok?
    ensures var b := InsertOutcome(rooms, blocks, nb, generatedId).value;
      NoOverlap(blocks + [b]) && IdsUnique(blocks + [b])
  {
    var b := InsertOutcome(rooms, blocks, nb, generatedId).value;
    var s := blocks + [b];
    forall i, j | 0 <= i < |s| && 0 <= j < |s| && i != j && s[i].roomId == s[j].roomId
      ensures !Overlaps(s[i].interval, s[j].interval)
    {
      if i == |blocks| {
        assert s[j] in blocks;
      } else if j == |blocks| {
        assert s[i] in blocks;
      }
    }
    forall i, j | 0 <= i < j < |s|
      ensures s[i].id != s[j].id
    {
      if j == |blocks| {
        assert s[i] in blocks;
      }
    }
  }

  /** Rows that differ pairwise occur once each. */
  lemma {:induction false} DistinctCountsOnce(s: seq<Block>, x: Block)
    requires IdsUnique(s)
    ensures multiset(s)[x] <= 1
  {
    if s != [] {
      assert s == [s[0]] + s[1..];
      DistinctCountsOnce(s[1..], x);
      if x == s[0] {
        assert x !in s[1..];
      }
    }
  }

  /** A row at two positions occurs at least twice. */
  lemma RepeatCountsTwice(s: seq<Block>, i: int, j: int)
    requires 0 <= i < j < |s| && s[i] == s[j]
    ensures multiset(s)[s[i]] >= 2
  {
    assert s == s[..j] + s[j..];
    assert s[..j][i] == s[i] && s[j..][0] == s[j];
    assert s[i] in multiset(s[..j]) && s[j] in multiset(s[j..]);
  }

  class BlockStore {
    /** The `rooms` table. */
    var rooms: seq<Room>
    /** The `blocks` table. */
    var blocks: seq<Block>

    ghost predicate Valid()
      reads this
    {
      && NoOverlap(blocks)
      && IdsUnique(blocks)
      && (forall b :: b in blocks ==> b.roomId in RoomIds(rooms) && !Reversed(b.interval))
    }

    constructor ()
      ensures Valid() && rooms == [] && blocks == []
    {
      rooms := [];
      blocks := [];
    }

    /** `INSERT INTO rooms`; refused when the id is taken. */
    method AddRoom(room: Room) returns (ok: bool)
      requires Valid()
      modifies this
      ensures Valid()
      ensures ok == (room.id !in RoomIds(old(rooms)))
      ensures rooms == (if ok then old(rooms) + [room] else old(rooms))
      ensures blocks == old(blocks)
    {
      ok := true;
      var i := 0;
      while i < |rooms|
        invariant 0 <= i <= |rooms|
        invariant ok == (forall k :: 0 <= k < i ==> rooms[k].id != room.id)
      {
        if rooms[i].id == room.id {
          ok := false;
        }
        i := i + 1;
      }
      if ok {
        rooms := rooms + [room];
        assert RoomIds(rooms) == RoomIds(old(rooms)) + {room.id};
      } else {
        var k :| 0 <= k < |rooms| && rooms[k].id == room.id;
        assert rooms[k] in rooms;
      }
    }

    /** `INSERT INTO blocks`: one atomic step that either adds the block or
        refuses it, so a block overlapping one of its room's blocks is never
        stored. `generatedId` is the id the database draws when none is given. */
    method Insert(nb: NewBlock, generatedId: Uuid) returns (r: Result<Block, InsertError>)
      requires Valid()
      modifies this
      ensures Valid()
      ensures r == InsertOutcome(old(rooms), old(blocks), nb, generatedId)
      ensures r.Err? ==> blocks == old(blocks)
      ensures r.Ok? ==> blocks == old(blocks) + [r.value]
      ensures rooms == old(rooms)
    {
      var id := if nb.id.Some? then nb.id.value else generatedId;
      if Reversed(nb.interval) {
        return Err(InvalidRange);
      }
      var taken, conflict := false, false;
      var i := 0;
      while i < |blocks|
        invariant 0 <= i <= |blocks|
        invariant taken == (exists k :: 0 <= k < i && blocks[k].id == id)
        invariant conflict == (exists k :: 0 <= k < i && blocks[k].roomId == nb.roomId && Overlaps(blocks[k].interval, nb.interval))
      {
        var b := blocks[i];
        taken := taken || b.id == id;
        conflict := conflict || (b.roomId == nb.roomId && Overlaps(b.interval, nb.interval));
        i := i + 1;
      }
      assert taken == HasId(blocks, id) by {
        if HasId(blocks, id) {
          var b :| b in blocks && b.id == id;
          var k :| 0 <= k < |blocks| && blocks[k] == b;
        }
      }
      assert conflict == ConflictsWith(blocks, nb.roomId, nb.interval) by {
        if ConflictsWith(blocks, nb.roomId, nb.interval) {
          var b :| b in blocks && b.roomId == nb.roomId && Overlaps(b.interval, nb.interval);
          var k :| 0 <= k < |blocks| && blocks[k] == b;
        }
      }
      var roomExists := false;
      var j := 0;
      while j < |rooms|
        invariant 0 <= j <= |rooms|
        invariant roomExists == (exists k :: 0 <= k < j && rooms[k].id == nb.roomId)
      {
        roomExists := roomExists || rooms[j].id == nb.roomId;
        j := j + 1;
      }
      assert roomExists == (nb.roomId in RoomIds(rooms)) by {
        if nb.roomId in RoomIds(rooms) {
          var room :| room in rooms && room.id == nb.roomId;
          var k :| 0 <= k < |rooms| && rooms[k] == room;
        }
      }
      if taken {
        r := Err(DuplicateId);
      } else if conflict {
        r := Err(Conflict);
      } else if !roomExists {
        r := Err(UnknownRoom);
      } else {
        r := Ok(Block(id, nb.roomId, nb.interval));
        InsertOutcomeKeepsInvariant(rooms, blocks, nb, generatedId);
        blocks := blocks + [r.value];
      }
    }

    /** The blocks of `roomId` overlapping `period`, ascending by interval;
        on this table their upper bounds ascend as well. */
    function FindOverlapping(roomId: Uuid, period: Interval): (r: seq<Block>)
      reads this
      requires Valid()
      ensures forall b :: b in r <==> b in blocks && b.roomId == roomId && Overlaps(b.interval, period)
      ensures forall i, j :: 0 <= i <= j < |r| ==>
        LowerCmp(r[i].interval.lo, r[j].interval.lo) != Greater
        && UpperCmp(r[i].interval.hi, r[j].interval.hi) != Greater
      ensures forall i, j :: 0 <= i < j < |r| ==> r[i] != r[j]
    {
      var r := OverlappingBlocks(blocks, roomId, period);
      assert forall i, j :: 0 <= i < j < |r| ==> r[i] != r[j] by {
        forall i, j | 0 <= i < j < |r|
          ensures r[i] != r[j]
        {
          if r[i] == r[j] {
            RepeatCountsTwice(r, i, j);
            DistinctCountsOnce(blocks, r[i]);
            assert false;
          }
        }
      }
      assert forall i, j :: 0 <= i <= j < |r| ==>
        LowerCmp(r[i].interval.lo, r[j].interval.lo) != Greater
        && UpperCmp(r[i].interval.hi, r[j].interval.hi) != Greater
      by {
        forall i, j | 0 <= i <= j < |r|
          ensures LowerCmp(r[i].interval.lo, r[j].interval.lo) != Greater
            && UpperCmp(r[i].interval.hi, r[j].interval.hi) != Greater
        {
          OverlappingBlocksOrdered(blocks, roomId, period, i, j);
        }
      }
      r
    }
  }
}
