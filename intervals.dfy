/** Interval bounds and their two orderings (domain/src/interval.rs), and the
    range-overlap predicate that PostgreSQL's `tstzrange && tstzrange` computes. */
module Intervals {

  /** A `DateTime<Utc>`, in nanoseconds since the Unix epoch. */
  type Timestamp = int

  /** chrono's `DateTime::<Utc>::MIN_UTC`: -262143-01-01T00:00:00Z. */
  const MIN_UTC: Timestamp := -8334601315200_000000000
  /** chrono's `DateTime::<Utc>::MAX_UTC`: +262142-12-31T23:59:59.999999999Z. */
  const MAX_UTC: Timestamp := 8210266876799_999999999

  predicate InChronoRange(t: Timestamp) {
    MIN_UTC <= t <= MAX_UTC
  }

  /** `std::ops::Bound<DateTime<Utc>>`. */
  datatype Bound = Unbounded | Included(t: Timestamp) | Excluded(t: Timestamp)

  /** `std::cmp::Ordering`, with `reverse` and `then`. */
  datatype Ordering = Less | Equal | Greater {
    function Reverse(): Ordering {
      match this
      case Less => Greater
      case Equal => Equal
      case Greater => Less
    }

    /** `Ordering::then`: this ordering, unless it is Equal. */
    function Then(other: Ordering): Ordering {
      if this == Equal then other else this
    }
  }

  /** `Ord::cmp` on timestamps. */
  function CmpTime(a: Timestamp, b: Timestamp): Ordering {
    if a < b then Less else if a == b then Equal else Greater
  }

  /** `Ord for LowerBound`: Unbounded first, and an inclusive start before an
      exclusive one at the same instant. */
  function LowerCmp(x: Bound, y: Bound): (r: Ordering)
    ensures r == Equal <==> x == y
  {
    match (x, y)
    case (Unbounded, Unbounded) => Equal
    case (Unbounded, _) => Less
    case (_, Unbounded) => Greater
    case (Included(a), Included(b)) => CmpTime(a, b)
    case (Excluded(a), Excluded(b)) => CmpTime(a, b)
    case (Included(a), Excluded(b)) => CmpTime(a, b).Then(Less)
    case (Excluded(a), Included(b)) => CmpTime(a, b).Then(Greater)
  }

  /** `Ord for UpperBound`: Unbounded last, and an inclusive end after an
      exclusive one at the same instant. */
  function UpperCmp(x: Bound, y: Bound): (r: Ordering)
    ensures r == Equal <==> x == y
  {
    match (x, y)
    case (Unbounded, Unbounded) => Equal
    case (Unbounded, _) => Greater
    case (_, Unbounded) => Less
    case (Included(a), Included(b)) => CmpTime(a, b)
    case (Excluded(a), Excluded(b)) => CmpTime(a, b)
    case (Included(a), Excluded(b)) => CmpTime(a, b).Then(Greater)
    case (Excluded(a), Included(b)) => CmpTime(a, b).Then(Less)
  }

  /** `std::cmp::min(LowerBound(x), LowerBound(y)).0`: the first argument
      unless it compares Greater. */
  function LowerMin(x: Bound, y: Bound): (r: Bound)
    ensures r == x || r == y
    ensures LowerCmp(r, x) != Greater && LowerCmp(r, y) != Greater
  {
    LowerCmpIsKeyOrder(x, y);
    LowerCmpIsKeyOrder(x, x);
    LowerCmpIsKeyOrder(y, y);
    LowerCmpIsKeyOrder(y, x);
    if LowerCmp(x, y) == Greater then y else x
  }

  /** `std::cmp::max(UpperBound(x), UpperBound(y)).0`: the second argument
      unless the first compares Greater. */
  function UpperMax(x: Bound, y: Bound): (r: Bound)
    ensures r == x || r == y
    ensures UpperCmp(r, x) != Less && UpperCmp(r, y) != Less
  {
    UpperCmpIsKeyOrder(x, y);
    UpperCmpIsKeyOrder(x, x);
    UpperCmpIsKeyOrder(y, y);
    UpperCmpIsKeyOrder(y, x);
    if UpperCmp(x, y) == Greater then x else y
  }

  // ---------------------------------------------------------------------
  // A reference meaning for bounds: positions on a doubled time line.
  // The point At(2t) is the instant t itself; At(2t + 1) stands for the
  // instants strictly between t and t + 1.

  datatype Point = NegInf | At(k: int) | PosInf

  function PointCmp(p: Point, q: Point): Ordering {
    match (p, q)
    case (NegInf, NegInf) => Equal
    case (NegInf, _) => Less
    case (_, NegInf) => Greater
    case (PosInf, PosInf) => Equal
    case (PosInf, _) => Greater
    case (_, PosInf) => Less
    case (At(a), At(b)) => CmpTime(a, b)
  }

  predicate PointLt(p: Point, q: Point) {
    PointCmp(p, q) == Less
  }

  /** The first point a range with lower bound `b` contains. */
  function LowerKey(b: Bound): Point {
    match b
    case Unbounded => NegInf
    case Included(t) => At(2 * t)
    case Excluded(t) => At(2 * t + 1)
  }

  /** The first point past the end of a range with upper bound `b`. */
  function UpperKey(b: Bound): Point {
    match b
    case Unbounded => PosInf
    case Included(t) => At(2 * t + 1)
    case Excluded(t) => At(2 * t)
  }

  /** The lower-bound ordering is the order of the points where ranges start. */
  lemma LowerCmpIsKeyOrder(x: Bound, y: Bound)
    ensures LowerCmp(x, y) == PointCmp(LowerKey(x), LowerKey(y))
  {
  }

  /** The upper-bound ordering is the order of the points where ranges end. */
  lemma UpperCmpIsKeyOrder(x: Bound, y: Bound)
    ensures UpperCmp(x, y) == PointCmp(UpperKey(x), UpperKey(y))
  {
  }

  lemma PointCmpIsTotalOrder(p: Point, q: Point, s: Point)
    ensures PointCmp(q, p) == PointCmp(p, q).Reverse()
    ensures PointCmp(p, q) == Equal <==> p == q
    ensures PointCmp(p, q) != Greater && PointCmp(q, s) != Greater ==> PointCmp(p, s) != Greater
    ensures PointCmp(p, q) == Less && PointCmp(q, s) != Greater ==> PointCmp(p, s) == Less
    ensures PointCmp(p, q) != Greater && PointCmp(q, s) == Less ==> PointCmp(p, s) == Less
  {
  }

  lemma LowerKeyInjective(x: Bound, y: Bound)
    ensures LowerKey(x) == LowerKey(y) ==> x == y
  {
  }

  lemma UpperKeyInjective(x: Bound, y: Bound)
    ensures UpperKey(x) == UpperKey(y) ==> x == y
  {
  }

  // ---------------------------------------------------------------------
  // Properties of the two orderings.

  /** As a lower bound, Unbounded is below every other bound. */
  lemma LowerUnboundedIsLeast(y: Bound)
    ensures LowerCmp(Unbounded, y) == (if y == Unbounded then Equal else Less)
    ensures LowerCmp(y, Unbounded) == (if y == Unbounded then Equal else Greater)
  {
  }

  /** As an upper bound, Unbounded is above every other bound. */
  lemma UpperUnboundedIsGreatest(y: Bound)
    ensures UpperCmp(Unbounded, y) == (if y == Unbounded then Equal else Greater)
    ensures UpperCmp(y, Unbounded) == (if y == Unbounded then Equal else Less)
  {
  }

  /** Two bounds of the same kind compare as their timestamps, in both roles. */
  lemma SameKindComparesTimestamps(x: Bound, y: Bound)
    requires (x.Included? && y.Included?) || (x.Excluded? && y.Excluded?)
    ensures LowerCmp(x, y) == CmpTime(x.t, y.t)
    ensures UpperCmp(x, y) == CmpTime(x.t, y.t)
  {
  }

  /** The tie rules at one instant. */
  lemma TieRules(t: Timestamp)
    ensures LowerCmp(Included(t), Excluded(t)) == Less
    ensures LowerCmp(Excluded(t), Included(t)) == Greater
    ensures UpperCmp(Included(t), Excluded(t)) == Greater
    ensures UpperCmp(Excluded(t), Included(t)) == Less
  {
  }

  /** Bounded bounds at different instants follow the timestamp order,
      whatever their kinds and in either role. */
  lemma DistinctInstantsCompareTimestamps(x: Bound, y: Bound)
    requires !x.Unbounded? && !y.Unbounded? && x.t != y.t
    ensures LowerCmp(x, y) == CmpTime(x.t, y.t)
    ensures UpperCmp(x, y) == CmpTime(x.t, y.t)
  {
  }

  /** The two roles disagree exactly on an Included/Excluded pair at one instant. */
  lemma RolesDisagreeOnlyOnTies(x: Bound, y: Bound)
    requires !x.Unbounded? && !y.Unbounded?
    ensures LowerCmp(x, y) != UpperCmp(x, y) <==> x.t == y.t && x.Included? != y.Included?
  {
  }

  /** Each ordering is antisymmetric, returns Equal only for identical bounds
      and is transitive: a total order consistent with `==`. */
  lemma LowerCmpIsTotalOrder(x: Bound, y: Bound, z: Bound)
    ensures LowerCmp(y, x) == LowerCmp(x, y).Reverse()
    ensures LowerCmp(x, y) == Equal <==> x == y
    ensures LowerCmp(x, y) != Greater && LowerCmp(y, z) != Greater ==> LowerCmp(x, z) != Greater
    ensures LowerCmp(x, y) == Less && LowerCmp(y, z) == Less ==> LowerCmp(x, z) == Less
  {
    LowerCmpIsKeyOrder(x, y);
    LowerCmpIsKeyOrder(y, x);
    LowerCmpIsKeyOrder(y, z);
    LowerCmpIsKeyOrder(x, z);
    LowerKeyInjective(x, y);
    PointCmpIsTotalOrder(LowerKey(x), LowerKey(y), LowerKey(z));
  }

  lemma UpperCmpIsTotalOrder(x: Bound, y: Bound, z: Bound)
    ensures UpperCmp(y, x) == UpperCmp(x, y).Reverse()
    ensures UpperCmp(x, y) == Equal <==> x == y
    ensures UpperCmp(x, y) != Greater && UpperCmp(y, z) != Greater ==> UpperCmp(x, z) != Greater
    ensures UpperCmp(x, y) == Less && UpperCmp(y, z) == Less ==> UpperCmp(x, z) == Less
  {
    UpperCmpIsKeyOrder(x, y);
    UpperCmpIsKeyOrder(y, x);
    UpperCmpIsKeyOrder(y, z);
    UpperCmpIsKeyOrder(x, z);
    UpperKeyInjective(x, y);
    PointCmpIsTotalOrder(UpperKey(x), UpperKey(y), UpperKey(z));
  }

  // ---------------------------------------------------------------------
  // Ranges and overlap.

  /** A `tstzrange`, i.e. the `(Bound, Bound)` pair diesel maps it to. */
  datatype Interval = Interval(lo: Bound, hi: Bound)

  /** `[start, end)`. */
  function HalfOpen(start: Timestamp, end: Timestamp): Interval {
    Interval(Included(start), Excluded(end))
  }

  /** Whether a range that starts at lower bound `lo` begins before a range
      that ends at upper bound `hi` stops: `<=` when both are inclusive,
      strict otherwise, and always when either is Unbounded. */
  predicate Before(lo: Bound, hi: Bound)
    ensures !lo.Unbounded? && !hi.Unbounded? && lo.t != hi.t ==> (Before(lo, hi) <==> lo.t < hi.t)
    ensures !lo.Unbounded? && !hi.Unbounded? && lo.t == hi.t ==> (Before(lo, hi) <==> lo.Included? && hi.Included?)
  {
    match (lo, hi)
    case (Unbounded, _) => true
    case (_, Unbounded) => true
    case (Included(a), Included(b)) => a <= b
    case (_, _) => lo.t < hi.t
  }

  predicate IsEmpty(i: Interval) {
    !Before(i.lo, i.hi)
  }

  /** Bounds PostgreSQL refuses to build a range from (lower above upper). */
  predicate Reversed(i: Interval) {
    !i.lo.Unbounded? && !i.hi.Unbounded? && i.lo.t > i.hi.t
  }

  /** PostgreSQL's `&&`: an empty range overlaps nothing; otherwise each
      range starts before the other ends. */
  predicate Overlaps(a: Interval, b: Interval)
    ensures IsEmpty(a) || IsEmpty(b) ==> !Overlaps(a, b)
    ensures a.lo.Unbounded? && b.lo.Unbounded? && !IsEmpty(a) && !IsEmpty(b) ==> Overlaps(a, b)
  {
    !IsEmpty(a) && !IsEmpty(b) && Before(a.lo, b.hi) && Before(b.lo, a.hi)
  }

  /** Whether the range holds the point `k` of the doubled time line. */
  predicate Contains(i: Interval, k: int) {
    PointCmp(LowerKey(i.lo), At(k)) != Greater && PointLt(At(k), UpperKey(i.hi))
  }

  lemma BeforeIsKeyOrder(lo: Bound, hi: Bound)
    ensures Before(lo, hi) <==> PointLt(LowerKey(lo), UpperKey(hi))
  {
  }

  /** A point of the range, when it has one. */
  function SomePoint(i: Interval): int
    requires !IsEmpty(i)
  {
    match LowerKey(i.lo)
    case At(k) => k
    case _ => if UpperKey(i.hi).At? then UpperKey(i.hi).k - 1 else 0
  }

  /** A range is empty exactly when it holds no point. */
  lemma EmptyIffNoPoint(i: Interval)
    ensures IsEmpty(i) <==> forall k :: !Contains(i, k)
  {
    BeforeIsKeyOrder(i.lo, i.hi);
    if !IsEmpty(i) {
      assert Contains(i, SomePoint(i));
    }
  }

  /** Overlap means sharing a point: `&&` is set intersection being non-empty. */
  lemma OverlapsIffSharedPoint(a: Interval, b: Interval)
    ensures Overlaps(a, b) <==> exists k :: Contains(a, k) && Contains(b, k)
  {
    BeforeIsKeyOrder(a.lo, a.hi);
    BeforeIsKeyOrder(b.lo, b.hi);
    BeforeIsKeyOrder(a.lo, b.hi);
    BeforeIsKeyOrder(b.lo, a.hi);
    if Overlaps(a, b) {
      var lo := if PointCmp(LowerKey(a.lo), LowerKey(b.lo)) == Greater then a.lo else b.lo;
      var hi := if PointCmp(UpperKey(a.hi), UpperKey(b.hi)) == Less then a.hi else b.hi;
      PointCmpIsTotalOrder(LowerKey(a.lo), LowerKey(b.lo), LowerKey(a.lo));
      PointCmpIsTotalOrder(UpperKey(a.hi), UpperKey(b.hi), UpperKey(a.hi));
      var k := SomePoint(Interval(lo, hi));
      assert Contains(a, k) && Contains(b, k);
    }
  }

  /** A range whose lower bound is no later and whose upper bound is no
      earlier than another's holds every point of the other. */
  lemma WiderBoundsContain(inner: Interval, outer: Interval, k: int)
    requires LowerCmp(outer.lo, inner.lo) != Greater
    requires UpperCmp(outer.hi, inner.hi) != Less
    requires Contains(inner, k)
    ensures Contains(outer, k)
  {
    LowerCmpIsKeyOrder(outer.lo, inner.lo);
    UpperCmpIsKeyOrder(outer.hi, inner.hi);
    PointCmpIsTotalOrder(LowerKey(outer.lo), LowerKey(inner.lo), At(k));
    PointCmpIsTotalOrder(At(k), UpperKey(inner.hi), UpperKey(outer.hi));
    PointCmpIsTotalOrder(UpperKey(outer.hi), UpperKey(inner.hi), At(k));
  }

  /** `&&` is symmetric. */
  lemma OverlapsSymmetric(a: Interval, b: Interval)
    ensures Overlaps(a, b) == Overlaps(b, a)
  {
  }

  /** Every non-empty range overlaps itself. */
  lemma OverlapsItself(a: Interval)
    ensures Overlaps(a, a) <==> !IsEmpty(a)
  {
  }

  /** Touching half-open ranges `[a,b)` and `[b,c)` are disjoint, while
      closed ranges `[a,b]` and `[b,c]` share the instant `b`. */
  lemma BoundaryPolicy(a: Timestamp, b: Timestamp, c: Timestamp)
    requires a < b < c
    ensures !Overlaps(HalfOpen(a, b), HalfOpen(b, c))
    ensures Overlaps(Interval(Included(a), Included(b)), Interval(Included(b), Included(c)))
  {
  }
}
