/** The scenario of infra/tests/concurrency_test.rs replayed on the block
    store: after the truncation, a room "101" and two overlapping half-open
    blocks for it; the first insert succeeds and the second is refused by the
    exclusion constraint. */
module ConcurrencyTest {
  import opened Intervals
  import opened Wrappers
  import opened Models
  import opened Store

  const SECOND: int := 1_000_000_000

  /** 2024-01-01 14:00, 2024-01-05 10:00, 2024-01-04 14:00 and 2024-01-06 10:00 UTC. */
  const START1: Timestamp := 1704117600 * SECOND
  const END1: Timestamp := 1704448800 * SECOND
  const START2: Timestamp := 1704376800 * SECOND
  const END2: Timestamp := 1704535200 * SECOND

  method DoubleBookingPrevention(classId: Uuid, roomId: Uuid, createdAt: Timestamp, generated1: Uuid, generated2: Uuid)
    returns (result1: Result<Block, InsertError>, result2: Result<Block, InsertError>)
    requires generated1 != generated2
    ensures result1 == Ok(Block(generated1, roomId, HalfOpen(START1, END1)))
    ensures result2 == Err(Conflict)
  {
    var store := new BlockStore();
    var added := store.AddRoom(Room(roomId, "101", classId, createdAt));
    assert added;
    result1 := store.Insert(NewBlock(None, roomId, HalfOpen(START1, END1)), generated1);
    assert store.blocks == [Block(generated1, roomId, HalfOpen(START1, END1))];
    result2 := store.Insert(NewBlock(None, roomId, HalfOpen(START2, END2)), generated2);
  }

  /** The race the test is named after, as the database serialises it: of
      any number of inserts into one room whose periods pairwise overlap,
      whichever is applied first succeeds and every later one is refused. */
  method SerializedInserts(room: Room, periods: seq<Interval>) returns (results: seq<Result<Block, InsertError>>)
    requires forall i, j :: 0 <= i < |periods| && 0 <= j < |periods| ==> Overlaps(periods[i], periods[j])
    ensures |results| == |periods|
    ensures |periods| > 0 ==> results[0] == Ok(Block(0, room.id, periods[0]))
    ensures forall k :: 1 <= k < |results| ==> results[k] == Err(Conflict)
  {
    var store := new BlockStore();
    var added := store.AddRoom(room);
    assert added;
    results := [];
    for k := 0 to |periods|
      invariant store.Valid() && store.rooms == [room]
      invariant |results| == k
      invariant k > 0 ==> store.blocks == [Block(0, room.id, periods[0])] && results[0] == Ok(Block(0, room.id, periods[0]))
      invariant k == 0 ==> store.blocks == []
      invariant forall m :: 1 <= m < k ==> results[m] == Err(Conflict)
    {
      if k == 0 {
        var p := periods[0];
        assert Overlaps(p, p);
        assert !Reversed(p);
        assert RoomIds([room]) == {room.id};
      } else {
        assert store.blocks[0] in store.blocks;
      }
      var r := store.Insert(NewBlock(None, room.id, periods[k]), k);
      results := results + [r];
    }
  }
}
