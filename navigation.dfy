/**
 * Geometry helpers for directional focus navigation between panes.
 *
 * A direction arrives as a string, as in the Python code; each helper
 * answers for "left", "up", "right" and "down" and rejects every other
 * string with a ValueError, modelled here as a Failure result.
 */
module Navigation {
  import opened Wrappers

  /** The on-screen rectangle of a widget, as the toolkit reports it. */
  datatype Allocation = Allocation(x: int, y: int, width: int, height: int)

  /** Allocations the toolkit hands out have no negative extent. */
  predicate WellFormed(a: Allocation)
  {
    a.width >= 0 && a.height >= 0
  }

  /** The four moves; `Name` gives the string the helpers compare against. */
  datatype Direction = Left | Up | Right | Down

  function Name(d: Direction): string
  {
    match d
    case Left => "left"
    case Up => "up"
    case Right => "right"
    case Down => "down"
  }

  predicate IsDirection(name: string)
  {
    name == "left" || name == "up" || name == "right" || name == "down"
  }

  function Opposite(d: Direction): Direction
  {
    match d
    case Left => Right
    case Right => Left
    case Up => Down
    case Down => Up
  }

  datatype ValueError = ValueError(message: string)

  /** The edge facing a direction, and the span perpendicular to it. */
  datatype Edge = Edge(edge: int, p1: int, p2: int)

  // ---------------------------------------------------------------------
  // The helpers
  // ---------------------------------------------------------------------

  function GetEdge(allocation: Allocation, direction: string): (r: Result<Edge, ValueError>)
    ensures r.Success? <==> IsDirection(direction)
  {
    if direction == "left" then
      Success(Edge(allocation.x, allocation.y, allocation.y + allocation.height))
    else if direction == "up" then
      Success(Edge(allocation.y, allocation.x, allocation.x + allocation.width))
    else if direction == "right" then
      Success(Edge(allocation.x + allocation.width, allocation.y, allocation.y + allocation.height))
    else if direction == "down" then
      Success(Edge(allocation.y + allocation.height, allocation.x, allocation.x + allocation.width))
    else
      Failure(ValueError("unknown direction " + direction))
  }

  function GetNavPossible(edge: int, allocation: Allocation, direction: string, p1: int, p2: int)
    : (r: Result<bool, ValueError>)
    ensures r.Success? <==> IsDirection(direction)
  {
    var x1, x2 := allocation.x, allocation.x + allocation.width;
    var y1, y2 := allocation.y, allocation.y + allocation.height;
    if direction == "left" then
      Success(x2 <= edge && y1 <= p2 && y2 >= p1)
    else if direction == "right" then
      Success(x1 >= edge && y1 <= p2 && y2 >= p1)
    else if direction == "up" then
      Success(y2 <= edge && x1 <= p2 && x2 >= p1)
    else if direction == "down" then
      Success(y1 >= edge && x1 <= p2 && x2 >= p1)
    else
      Failure(ValueError("Unknown direction: " + direction))
  }

  function GetNavOffset(edge: int, allocation: Allocation, direction: string): (r: Result<int, ValueError>)
    ensures r.Success? <==> IsDirection(direction)
  {
    if direction == "left" then
      Success(edge - (allocation.x + allocation.width))
    else if direction == "right" then
      Success(allocation.x - edge)
    else if direction == "up" then
      Success(edge - (allocation.y + allocation.height))
    else if direction == "down" then
      Success(allocation.y - edge)
    else
      Failure(ValueError("Unknown direction: " + direction))
  }

  function GetNavTiebreak(direction: string, cursorX: int, cursorY: int, rect: Allocation)
    : (r: Result<bool, ValueError>)
    ensures r.Success? <==> IsDirection(direction)
  {
    if direction == "left" || direction == "right" then
      Success(cursorY >= rect.y && cursorY <= rect.y + rect.height)
    else if direction == "up" || direction == "down" then
      Success(cursorX >= rect.x && cursorX <= rect.x + rect.width)
    else
      Failure(ValueError("Unknown direction: " + direction))
  }

  // ---------------------------------------------------------------------
  // Reference geometry: rectangles as sets of points
  // ---------------------------------------------------------------------

  predicate InSpan(q: int, lo: int, hi: int)
  {
    lo <= q <= hi
  }

  /** The closed interval an allocation covers along the axis of a move. */
  function Along(b: Allocation, d: Direction): (int, int)
  {
    if d == Left || d == Right then (b.x, b.x + b.width) else (b.y, b.y + b.height)
  }

  /** The closed interval an allocation covers across the axis of a move. */
  function Across(b: Allocation, d: Direction): (int, int)
  {
    if d == Left || d == Right then (b.y, b.y + b.height) else (b.x, b.x + b.width)
  }

  /** Whether coordinate q along the axis of d lies at or past `edge` in direction d. */
  predicate AtOrPast(q: int, edge: int, d: Direction)
  {
    if d == Left || d == Up then q <= edge else q >= edge
  }

  /** Every point of b lies at or past `edge` in direction d. */
  ghost predicate Beyond(edge: int, b: Allocation, d: Direction)
  {
    forall q :: InSpan(q, Along(b, d).0, Along(b, d).1) ==> AtOrPast(q, edge, d)
  }

  /** b's perpendicular extent shares at least one coordinate with [p1, p2]. */
  ghost predicate Meets(b: Allocation, d: Direction, p1: int, p2: int)
  {
    exists q :: InSpan(q, Across(b, d).0, Across(b, d).1) && InSpan(q, p1, p2)
  }

  /** The point (px, py) lies in the closed rectangle r. */
  predicate Contains(r: Allocation, px: int, py: int)
  {
    InSpan(px, r.x, r.x + r.width) && InSpan(py, r.y, r.y + r.height)
  }

  function Abs(n: int): nat
  {
    if n < 0 then -n else n
  }

  /** o is the distance from `edge` to the nearest coordinate of [lo, hi]. */
  ghost predicate NearestDistance(o: int, edge: int, lo: int, hi: int)
  {
    && (forall q :: InSpan(q, lo, hi) ==> o <= Abs(q - edge))
    && (exists q :: InSpan(q, lo, hi) && Abs(q - edge) == o)
  }

  /** b lies in direction d of a's edge, with a perpendicular span meeting a's. */
  ghost predicate Candidate(a: Allocation, b: Allocation, d: Direction)
  {
    match GetEdge(a, Name(d))
    case Success(e) => GetNavPossible(e.edge, b, Name(d), e.p1, e.p2) == Success(true)
    case Failure(_) => false
  }

  // ---------------------------------------------------------------------
  // Properties
  // ---------------------------------------------------------------------

  /**
   * Any other string is rejected by every helper with a ValueError (get_edge
   * words its message differently from the other three).
   */
  lemma UnknownDirectionRejected(a: Allocation, edge: int, p1: int, p2: int, cx: int, cy: int, name: string)
    requires !IsDirection(name)
    ensures GetEdge(a, name) == Failure(ValueError("unknown direction " + name))
    ensures GetNavPossible(edge, a, name, p1, p2) == Failure(ValueError("Unknown direction: " + name))
    ensures GetNavOffset(edge, a, name) == Failure(ValueError("Unknown direction: " + name))
    ensures GetNavTiebreak(name, cx, cy, a) == Failure(ValueError("Unknown direction: " + name))
  {
  }

  /**
   * The edge get_edge returns touches the allocation, the whole allocation
   * lies on the side opposite to the move, and (p1, p2) is exactly its
   * perpendicular extent.
   */
  lemma EdgeFacesDirection(a: Allocation, d: Direction)
    requires WellFormed(a)
    ensures GetEdge(a, Name(d)).Success?
    ensures var e := GetEdge(a, Name(d)).value;
      && InSpan(e.edge, Along(a, d).0, Along(a, d).1)
      && Beyond(e.edge, a, Opposite(d))
      && (e.p1, e.p2) == Across(a, d)
  {
    var e := GetEdge(a, Name(d)).value;
    var o := Opposite(d);
    assert Along(a, o) == Along(a, d);
    forall q | InSpan(q, Along(a, o).0, Along(a, o).1)
      ensures AtOrPast(q, e.edge, o)
    {
    }
  }

  /**
   * For a well-formed b and p1 <= p2 (which get_edge of a well-formed
   * allocation supplies), get_nav_possible holds exactly when every point of
   * b is at or past the edge in direction d and b's perpendicular extent
   * shares a point with [p1, p2].
   */
  lemma NavPossibleMeaning(edge: int, b: Allocation, d: Direction, p1: int, p2: int)
    requires WellFormed(b) && p1 <= p2
    ensures GetNavPossible(edge, b, Name(d), p1, p2) == Success(Beyond(edge, b, d) && Meets(b, d, p1, p2))
  {
    var (lo, hi) := Along(b, d);
    var (clo, chi) := Across(b, d);
    var near := if d == Left || d == Up then hi else lo;
    assert InSpan(near, lo, hi);
    var beyond := AtOrPast(near, edge, d);
    if beyond {
      forall q | InSpan(q, lo, hi) ensures AtOrPast(q, edge, d) { }
    }
    assert Beyond(edge, b, d) == beyond;
    var overlap := clo <= p2 && chi >= p1;
    if overlap {
      var w := if clo < p1 then p1 else clo;
      assert InSpan(w, clo, chi) && InSpan(w, p1, p2);
    }
    assert Meets(b, d, p1, p2) == overlap;
  }

  /**
   * For any candidate, well-formed or not, the offset is non-negative and it
   * is zero exactly when b's near boundary touches the edge.
   */
  lemma CandidateOffsetNonNegative(edge: int, b: Allocation, d: Direction, p1: int, p2: int)
    requires GetNavPossible(edge, b, Name(d), p1, p2) == Success(true)
    ensures GetNavOffset(edge, b, Name(d)).Success?
    ensures var o := GetNavOffset(edge, b, Name(d)).value;
      && o >= 0
      && (o == 0 <==> edge == (if d == Left || d == Up then Along(b, d).1 else Along(b, d).0))
  {
  }

  /**
   * For a well-formed candidate the offset is, in addition, the distance from
   * the edge to b's nearest point along the axis of the move. The first two
   * clauses restate CandidateOffsetNonNegative, so that this lemma gives the
   * whole meaning of the offset in one place.
   */
  lemma OffsetOfCandidate(edge: int, b: Allocation, d: Direction, p1: int, p2: int)
    requires WellFormed(b)
    requires GetNavPossible(edge, b, Name(d), p1, p2) == Success(true)
    ensures GetNavOffset(edge, b, Name(d)).Success?
    ensures var o := GetNavOffset(edge, b, Name(d)).value;
      && o >= 0
      && (o == 0 <==> edge == (if d == Left || d == Up then Along(b, d).1 else Along(b, d).0))
      && NearestDistance(o, edge, Along(b, d).0, Along(b, d).1)
  {
    CandidateOffsetNonNegative(edge, b, d, p1, p2);
    var o := GetNavOffset(edge, b, Name(d)).value;
    var (lo, hi) := Along(b, d);
    var near := if d == Left || d == Up then hi else lo;
    assert InSpan(near, lo, hi) && Abs(near - edge) == o;
    forall q | InSpan(q, lo, hi) ensures o <= Abs(q - edge) { }
  }

  /** b is a right candidate of a exactly when a is a left candidate of b. */
  lemma CandidateSymmetricHorizontal(a: Allocation, b: Allocation)
    ensures Candidate(a, b, Right) <==> Candidate(b, a, Left)
    ensures GetNavOffset(GetEdge(a, "right").value.edge, b, "right")
         == GetNavOffset(GetEdge(b, "left").value.edge, a, "left")
  {
  }

  /** b is a down candidate of a exactly when a is an up candidate of b. */
  lemma CandidateSymmetricVertical(a: Allocation, b: Allocation)
    ensures Candidate(a, b, Down) <==> Candidate(b, a, Up)
    ensures GetNavOffset(GetEdge(a, "down").value.edge, b, "down")
         == GetNavOffset(GetEdge(b, "up").value.edge, a, "up")
  {
  }

  /**
   * A pane with positive extent is never a candidate of itself. The premise
   * is needed: because the tests are inclusive, a pane of zero width (such as
   * Allocation(0, 0, 0, 1)) is its own right and left candidate.
   */
  lemma NotOwnCandidate(a: Allocation, d: Direction)
    requires a.width > 0 && a.height > 0
    ensures !Candidate(a, a, d)
  {
  }

  /** The tie-break looks only at the cursor coordinate across the move. */
  lemma TiebreakIgnoresMoveAxis(d: Direction, cx: int, cy: int, cx': int, cy': int, rect: Allocation)
    ensures d == Left || d == Right ==>
      GetNavTiebreak(Name(d), cx, cy, rect) == GetNavTiebreak(Name(d), cx', cy, rect)
    ensures d == Up || d == Down ==>
      GetNavTiebreak(Name(d), cx, cy, rect) == GetNavTiebreak(Name(d), cx, cy', rect)
  {
  }

  /**
   * The tie-break holds exactly when the line through the cursor along the
   * axis of the move crosses rect.
   */
  lemma TiebreakMeaning(d: Direction, cx: int, cy: int, rect: Allocation)
    requires WellFormed(rect)
    ensures d == Left || d == Right ==>
      GetNavTiebreak(Name(d), cx, cy, rect) == Success(exists px :: Contains(rect, px, cy))
    ensures d == Up || d == Down ==>
      GetNavTiebreak(Name(d), cx, cy, rect) == Success(exists py :: Contains(rect, cx, py))
  {
    if d == Left || d == Right {
      if InSpan(cy, rect.y, rect.y + rect.height) {
        assert Contains(rect, rect.x, cy);
      }
    } else {
      if InSpan(cx, rect.x, rect.x + rect.width) {
        assert Contains(rect, cx, rect.y);
      }
    }
  }

  /**
   * In a 2x2 grid of w-by-h panes, both right-hand panes are right
   * candidates of the top-left pane at offset 0, because spans that only
   * touch at a corner count as overlapping; with the cursor strictly above
   * the shared boundary, the cursor tie-break is what separates them.
   */
  lemma GridCornerTouchIsCandidate(w: int, h: int, cx: int, cy: int)
    requires w > 0 && h > 0
    requires 0 <= cy < h
    ensures var topLeft, topRight, bottomRight :=
      Allocation(0, 0, w, h), Allocation(w, 0, w, h), Allocation(w, h, w, h);
      && Candidate(topLeft, topRight, Right)
      && Candidate(topLeft, bottomRight, Right)
      && GetNavOffset(w, topRight, "right") == Success(0)
      && GetNavOffset(w, bottomRight, "right") == Success(0)
      && GetNavTiebreak("right", cx, cy, topRight) == Success(true)
      && GetNavTiebreak("right", cx, cy, bottomRight) == Success(false)
  {
  }

  /**
   * With the cursor exactly on the shared boundary (cy == h) the inclusive
   * tie-break does not separate the two right-hand panes: both pass.
   */
  lemma GridSharedBoundaryTies(w: int, h: int, cx: int)
    requires w > 0 && h > 0
    ensures GetNavTiebreak("right", cx, h, Allocation(w, 0, w, h)) == Success(true)
    ensures GetNavTiebreak("right", cx, h, Allocation(w, h, w, h)) == Success(true)
  {
  }
}
