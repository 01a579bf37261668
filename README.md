# hserver: when is a room blocked?

A Dafny model of the time-interval core of the hserver hotel back end. Rooms are held by
*blocks*: rows of the `blocks` table, each a `tstzrange` on one room. A block is occupied
by a booking or by maintenance. The model covers:

- **Bound ordering** (`Intervals`). `LowerBound` and `UpperBound` from
  domain/src/interval.rs order `Bound`s (`Unbounded | Included(t) | Excluded(t)`) as range
  starts and as range ends. They are proved total orders. The proof maps every bound to a
  point of a doubled time line: `2t` is the instant `t`, `2t + 1` is the gap after it.
  Each order is exactly the order of those points.
- **Overlap** (`Intervals`). PostgreSQL's `&&` is defined from the two roles. It is proved
  to mean "the ranges share a point" (an empty range overlaps nothing).
- **The blocks table** (`Store`). This covers `ORDER BY interval`, the overlap query every
  read uses, and a `BlockStore` class. Its `Insert` is the atomic check-and-insert that the
  table's exclusion constraint provides, so no two blocks of a room ever overlap. On such a
  table the overlap query returns blocks ascending by both bounds.
- **The availability view** (`Calendar`, `RoomDomain.GetAvailability`,
  `RoomRoutes.Availability`). Loaded blocks are classified as Booking, Maintenance or
  Unknown. The query period is widened to the first block's start and the last block's end,
  which is proved to hold every returned block.
- **Room search and listing.** `RoomDomain.Find` is the database search.
  `SearchRoutes.FindRoom` is the in-memory search with its `HashSet` loop. The two are
  proved to agree on every table whose blocks are non-empty and none of which ends
  Included at the query start. Both excluded cases are shown to diverge: a block ending
  Included at the start (see Findings), and a block with no points such as `[t, t)`,
  which the in-memory test counts when `t` lies inside the period (with the bounds kept as
  given; see the empty-range line under "## Left out"). `RoomDomain.List` covers paging.
- **The double-booking test** (`ConcurrencyTest`), replayed on `BlockStore`.

Tables are passed to each query as values: `seq<Room>`, `seq<Block>`, and maps from block
id to its booking or maintenance row. Whether a pooled connection could be had is the
parameter `poolOk`. Times are `int` nanoseconds since the Unix epoch, and `MIN_UTC` and
`MAX_UTC` are chrono's limits. UUIDs are `nat`.

Two behaviours of the code that the model keeps as written:
- `get_availability` reports a failed load as `NotFound`. The only load failure the model
  knows is a period whose start is after its end, which PostgreSQL cannot build into a range.
- The `label` of a calendar block is the text stored in the booking's `status` column
  (the schema declares it `Text`), or else the maintenance kind's `Debug` name. The model
  types the status with the two-variant `BookingStatus` of infra/src/models/mod.rs and takes
  the variant name (`Pending` or `Confirmed`) as that text. The shape follows the handler
  bodies, not api/src/v1/rooms/dtos.rs, whose `CalendarBlock` has a different shape.

## Model

| member | source | states |
|---|---|---|
| Intervals.LowerCmp | domain/src/interval.rs:16-27 | `Ord for LowerBound`; Equal exactly when the two bounds are the same |
| Intervals.UpperCmp | domain/src/interval.rs:36-47 | `Ord for UpperBound`; Equal exactly when the two bounds are the same |
| Intervals.LowerMin | infra/src/domains/room/mod.rs:135-139 | `std::cmp::min` over `LowerBound`: the result is one of the two bounds and is not above either of them |
| Intervals.UpperMax | infra/src/domains/room/mod.rs:140-144 | `std::cmp::max` over `UpperBound`: the result is one of the two bounds and is not below either of them |
| Intervals.LowerCmpIsKeyOrder | domain/src/interval.rs:16-27 | the lower-bound ordering is the order of the first points the ranges hold |
| Intervals.UpperCmpIsKeyOrder | domain/src/interval.rs:36-47 | the upper-bound ordering is the order of the first points past the ranges' ends |
| Intervals.PointCmpIsTotalOrder | domain/src/interval.rs:16-47 | the reference point order is antisymmetric, Equal only on equal points, and transitive |
| Intervals.LowerKeyInjective | domain/src/interval.rs:4-5 | distinct lower bounds start at distinct points |
| Intervals.UpperKeyInjective | domain/src/interval.rs:7-8 | distinct upper bounds end at distinct points |
| Intervals.LowerUnboundedIsLeast | domain/src/interval.rs:19-21 | as a lower bound, Unbounded is Equal to itself and Less than every other bound |
| Intervals.UpperUnboundedIsGreatest | domain/src/interval.rs:39-41 | as an upper bound, Unbounded is Equal to itself and Greater than every other bound |
| Intervals.SameKindComparesTimestamps | domain/src/interval.rs:22-23 | two Included or two Excluded bounds compare as their timestamps, in both roles |
| Intervals.TieRules | domain/src/interval.rs:24-25 | at one instant, lower Included < Excluded and upper Included > Excluded, both ways round |
| Intervals.DistinctInstantsCompareTimestamps | domain/src/interval.rs:42-45 | bounded bounds at different instants compare as their timestamps, whatever their kinds and role |
| Intervals.RolesDisagreeOnlyOnTies | domain/src/interval.rs:24-25 | the two roles give different answers iff the bounds are Included and Excluded at the same instant |
| Intervals.LowerCmpIsTotalOrder | domain/src/interval.rs:16-27 | `LowerBound::cmp` is antisymmetric, Equal iff the bounds are equal, and transitive |
| Intervals.UpperCmpIsTotalOrder | domain/src/interval.rs:36-47 | `UpperBound::cmp` is antisymmetric, Equal iff the bounds are equal, and transitive |
| Intervals.Before | infra/src/domains/room/mod.rs:100 | a start precedes an end: at different instants as the timestamps; at one instant only when both bounds are Included |
| Intervals.Overlaps | infra/src/domains/room/mod.rs:100 | PostgreSQL `&&`: an empty range overlaps nothing; two non-empty ranges with no lower bound always overlap |
| Intervals.BeforeIsKeyOrder | infra/src/domains/room/mod.rs:100 | a range's start precedes another's end iff its first point lies before the other's end point |
| Intervals.EmptyIffNoPoint | infra/src/domains/room/mod.rs:100 | a range is empty exactly when it holds no point |
| Intervals.OverlapsIffSharedPoint | infra/src/domains/room/mod.rs:100 | `&&` holds iff the two ranges share a point |
| Intervals.WiderBoundsContain | infra/src/domains/room/mod.rs:134-145 | a range starting no later and ending no earlier holds every point of the other |
| Intervals.OverlapsSymmetric | infra/src/domains/room/mod.rs:261 | `&&` is symmetric |
| Intervals.OverlapsItself | infra/src/domains/room/mod.rs:261 | a range overlaps itself iff it is not empty |
| Intervals.BoundaryPolicy | infra/src/domains/room/mod.rs:250 | `[a,b)` and `[b,c)` are disjoint; `[a,b]` and `[b,c]` overlap |
| Store.RangeCmp | infra/src/domains/room/mod.rs:103 | `ORDER BY interval`: Equal exactly for equal ranges; the lower bounds decide unless they are equal |
| Store.RangeCmpIsTotalOrder | infra/src/domains/room/mod.rs:103 | `ORDER BY interval` (lower bound, then upper bound) is antisymmetric and transitive |
| Store.InsertByInterval | infra/src/domains/room/mod.rs:103 | inserting into the ordered rows adds exactly the one row |
| Store.InsertKeepsSorted | infra/src/domains/room/mod.rs:103 | inserting a row into rows in interval order keeps them in order |
| Store.SortByInterval | infra/src/domains/room/mod.rs:103 | the ordered rows are a permutation of the loaded rows |
| Store.SortIsSorted | infra/src/domains/room/mod.rs:103 | the ordered rows are in interval order |
| Store.Matching | infra/src/domains/room/mod.rs:98-100 | a SQL filter: each row of the room whose interval overlaps the period occurs as often as in the table, every other row not at all |
| Store.OverlappingBlocks | infra/src/domains/room/mod.rs:98-103 | the rows returned are a permutation of the filtered rows (each matching row once per occurrence), in interval order |
| Store.NoOverlapOnValues | infra/tests/concurrency_test.rs:91-105 | under the exclusion constraint, two distinct blocks of a room do not overlap |
| Store.DisjointEndsAscend | infra/src/domains/room/mod.rs:140-143 | pairwise disjoint non-empty blocks ordered by start are also ordered by end, so the last ends last |
| Store.OverlappingBlocksOrdered | infra/src/domains/room/mod.rs:131-146 | on a table that keeps the constraint, the overlap query's rows ascend by both bounds |
| Store.InsertOutcome | infra/tests/concurrency_test.rs:83-105 | an insert succeeds iff the range can be built, the id is free, no block of the room overlaps and the room exists; the stored block is the new one with the given or generated id; a conflict means an overlapping block of the room |
| Store.InsertOutcomeKeepsInvariant | infra/tests/concurrency_test.rs:83-105 | a successful insert keeps "no two blocks of a room overlap" and unique ids |
| Store.BlockStore.constructor | infra/tests/concurrency_test.rs:37-41 | the truncated tables are empty and keep the invariant |
| Store.BlockStore.AddRoom | infra/tests/concurrency_test.rs:58-69 | a room is added iff its id is new; blocks are unchanged |
| Store.BlockStore.Insert | infra/tests/concurrency_test.rs:74-105 | the insert refuses a reversed range, a taken id, an overlapping block on the room and a missing room, in that order; otherwise it appends the block; the invariant is kept |
| Store.BlockStore.FindOverlapping | infra/src/domains/room/mod.rs:98-103 | returns exactly the room's blocks overlapping the period, each once, ascending by lower and by upper bound |
| Calendar.JoinAll | infra/src/domains/room/mod.rs:101-102 | each loaded block is paired with its booking and its maintenance row iff one exists |
| Calendar.Classify | infra/src/domains/room/mod.rs:113-127 | Booking iff a booking exists; Maintenance iff none does but maintenance does; only Unknown has no label; labels are the status and kind names; id and interval kept |
| Calendar.ClassifyAll | infra/src/domains/room/mod.rs:111-129 | one calendar block per row, in row order |
| Calendar.Widen | infra/src/domains/room/mod.rs:131-146 | with no blocks the query period; otherwise it starts no later than the query and the first block and ends no earlier than the query and the last block, using their own bounds |
| Calendar.WidenCoversEveryBlock | infra/src/domains/room/mod.rs:131-146 | on blocks ascending by both bounds, the widened period holds every point of the query and of every block |
| RoomDomain.Searched | infra/src/domains/room/mod.rs:49-53 | the rooms whose label contains the search text, in table order |
| RoomDomain.PageWindow | infra/src/domains/room/mod.rs:60-62 | page and per_page are clamped to at least 1; the offset is `(page - 1) * per_page` and never negative |
| RoomDomain.Slice | infra/src/domains/room/mod.rs:64-67 | LIMIT/OFFSET: at most `limit` rows, the ones starting at `offset` |
| RoomDomain.List | infra/src/domains/room/mod.rs:32-80 | Unauthorized iff no staff id; InternalError iff staff but no connection; otherwise the total counts the matching rooms and the page is the LIMIT/OFFSET window of them given by the clamped page and per_page |
| RoomDomain.EveryRoomIsOnItsPage | infra/src/domains/room/mod.rs:60-67 | under the table order of "## Left out", the i-th matching room is at position i mod per_page of page i div per_page + 1 |
| RoomDomain.CalendarOf | infra/src/domains/room/mod.rs:96-129 | position by position the room's blocks overlapping the period in interval order, each with its kind and label (status name, else maintenance kind name, else none); as sets, exactly those blocks |
| RoomDomain.GetAvailability | infra/src/domains/room/mod.rs:82-153 | Unauthorized iff no staff id, before the connection; InternalError iff no connection; NotFound iff start > end; otherwise the blocks are the calendar of `[start, end)` and the period is that range widened to the first and last block, equal to it when nothing overlaps and containing it always |
| RoomDomain.GetAvailabilityCoversBlocks | infra/src/domains/room/mod.rs:131-146 | on a table that keeps the constraint, the returned period holds the query and every returned block |
| RoomDomain.Summaries | infra/src/domains/room/mod.rs:270-277 | one summary per room, in order; a summary is listed iff it is some room's |
| RoomDomain.FreeRooms | infra/src/domains/room/mod.rs:252-262 | a room is kept iff it matches the class filter and no block on it overlaps the period; order kept |
| RoomDomain.Find | infra/src/domains/room/mod.rs:237-282 | InvalidDateRange iff start >= end, before the connection; InternalError iff no connection; otherwise a summary is returned iff its room matches the class and has no block overlapping `[start, end)` |
| RoomRoutes.Availability | api/src/v1/rooms/routes.rs:15-86 | Unauthorized iff no staff id; InternalError iff no connection; NotFound iff the query range is reversed; otherwise the calendar of the query period, with the period widened to the first and last block and containing the query |
| RoomRoutes.AvailabilityAgreesWithGetAvailability | api/src/v1/rooms/routes.rs:29-77 | on a half-open period, the older handler returns the same period and blocks as `get_availability` |
| RoomRoutes.AvailabilityCoversBlocks | api/src/v1/rooms/routes.rs:62-77 | on a table that keeps the constraint, the returned period holds the query and every returned block |
| SearchRoutes.BlockStart | api/src/v1/search/routes.rs:54-58 | Unbounded becomes MIN_UTC; otherwise the instant the block's first point falls in, whatever the bound's kind |
| SearchRoutes.BlockEnd | api/src/v1/search/routes.rs:60-64 | Unbounded becomes MAX_UTC; otherwise the instant the block's end point falls in, whatever the bound's kind |
| SearchRoutes.Hits | api/src/v1/search/routes.rs:66-69 | for a non-empty block and a valid period, the handler's test is `&&` on `[start, end)` minus the case of an end Included at `start` |
| SearchRoutes.FindRoomResult | api/src/v1/search/routes.rs:12-86 | InvalidDateRange iff start >= end; InternalError iff no connection; otherwise a summary is listed iff its room matches the class and no block on it passes the handler's test |
| SearchRoutes.Candidates | api/src/v1/search/routes.rs:23-32 | the rooms matching the optional class, in table order |
| SearchRoutes.BlocksOfRooms | api/src/v1/search/routes.rs:42-46 | exactly the blocks whose room is among the candidates |
| SearchRoutes.Unblocked | api/src/v1/search/routes.rs:73-75 | the candidates whose id is not in the blocked set, in order |
| SearchRoutes.FreeInMemory | api/src/v1/search/routes.rs:49-81 | a candidate is kept iff no block on it meets the handler's test; order kept |
| SearchRoutes.FindRoom | api/src/v1/search/routes.rs:12-86 | the loop's blocked set is the rooms of the blocks passing `block_start < end && block_end > start`; the answer is FreeInMemory's, InvalidDateRange when start >= end, and empty when no room is a candidate |
| SearchRoutes.VisitOrderIrrelevant | api/src/v1/search/routes.rs:49-70 | any permutation of the loaded blocks gives the same answer |
| SearchRoutes.FreeInMemoryIsFreeRooms | api/src/v1/search/routes.rs:49-81 | when no block ends Included at the query start, the in-memory answer is the database answer |
| SearchRoutes.FindRoomAgreesWithFind | api/src/v1/search/routes.rs:12-86 | under the same condition `find_room` and `find` give the same errors and the same rooms |
| SearchRoutes.ClosedTouchDiverges | api/src/v1/search/routes.rs:60-69 | a room held until `s` inclusive is free for `[s, s+1h)` in memory but not in the database |
| SearchRoutes.EmptyBlockDiverges | api/src/v1/search/routes.rs:54-69 | a room whose only block is `[t, t)` with `t` inside the period is blocked in memory but free in the database |
| SearchRoutes.HitsCorrectedIsOverlaps | api/src/v1/search/routes.rs:66-69 | the test with the inclusive end counted is exactly `&&` on `[start, end)` |
| ConcurrencyTest.DoubleBookingPrevention | infra/tests/concurrency_test.rs:43-105 | in room "101", `[Jan 1 14:00, Jan 5 10:00)` is stored and `[Jan 4 14:00, Jan 6 10:00)` is refused with a conflict |
| ConcurrencyTest.SerializedInserts | infra/tests/concurrency_test.rs:74-105 | of pairwise overlapping inserts into one room, the first succeeds and every later one conflicts |

## Left out

- Calendar.Classify: a booking's label is the stored status text; the model limits it to the two `BookingStatus` variant names.
- Authentication (ciphers, token encoding, password hashing, middleware): the caller is a given `SessionUser` whose `staffId` may be absent.
- Connection pooling: a failed `pool.get()` is the `poolOk` flag.
- RoomDomain.List: the `DatabaseError` variant is not modelled; the count and page queries are taken to succeed.
- RoomDomain.List: `ILIKE '%search%'` is modelled as a case-sensitive substring test; case folding and the `%`/`_` wildcards in the search text are not modelled.
- RoomDomain.PageWindow: the 64-bit overflow of `(page - 1) * per_page` is not modelled; integers are unbounded.
- RoomDomain.Find: the failed load of the rooms, which also gives InternalError, is not modelled; `poolOk` covers the connection only.
- RoomDomain.GetAvailability: load failures other than a reversed period (a lost connection, a server error) are not modelled; each would also give NotFound.
- RoomRoutes.Availability: as for GetAvailability, only the reversed period is modelled as a failed load.
- SearchRoutes.FindRoom: the two load failures (candidate rooms, blocks) are not modelled separately; `poolOk` covers the connection only.
- Row order where no `ORDER BY` is given (rooms in `list`, `find` and `find_room`) is modelled as table order. PostgreSQL promises no such order, so `list`'s LIMIT/OFFSET pages, which have no `ORDER BY`, may in fact skip or repeat rooms between page queries.
- PostgreSQL turns a range with no points into the canonical `empty` range, and the way diesel reads that back is not modelled. The store keeps the bounds as given, and empty ranges overlap nothing.
- The race between concurrent inserts is modelled as atomic sequential inserts; tasks and locks are not modelled.
- `created_at`/`updated_at` of blocks, the `room_classes` table and its foreign key are not modelled.
- `get_classes` and `get_details` (joins and grouping) are not modelled.
- Time zones, chrono parsing and microsecond rounding are not modelled; a time is an integer nanosecond count.

## Findings

| source | as written | input that shows it | evidently intended | confidence | as-written member | corrected member |
|---|---|---|---|---|---|---|
| api/src/v1/search/routes.rs:60-69 | `block_end > query.start` drops the bound kind, so a block whose end is `Included(start)` does not block the room | a room whose only block is `[s - 1h, s]` (inclusive end) and a search for `[s, s + 1h)`: `find_room` lists the room, while `find` and the exclusion constraint treat the two as overlapping at `s` | the PostgreSQL `&&` the rest of the system uses, i.e. also count a block ending `Included(start)` | medium, not executed | SearchRoutes.ClosedTouchDiverges | SearchRoutes.HitsCorrectedIsOverlaps |
