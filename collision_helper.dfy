/** Overlap tests between blocks.  The board wraps around horizontally, so
    besides the plain rectangle test there is a second test in which a block
    near either side edge is shifted by the board width. */
module CollisionHelper {
  import opened Blocks

  /** The two intervals [ax, ax + aw) and [bx, bx + bw) overlap. */
  predicate IntervalsOverlap(ax: int, aw: int, bx: int, bw: int) {
    ax < bx + bw && ax + aw > bx
  }

  /** The unshifted rectangles overlap on both axes. */
  predicate Overlaps(a: Rect, b: Rect) {
    IntervalsOverlap(a.x, a.width, b.x, b.width) && IntervalsOverlap(a.y, a.height, b.y, b.height)
  }

  /** The x coordinate used by the wrapped test: a block closer to the left
      edge than its own width is moved one board width to the right, one
      closer to the right edge than its width is moved one board width to the
      left, and any other block stays where it is.  At most one shift is
      applied. */
  function WrappedX(boardWidth: int, r: Rect): (wx: int)
    requires boardWidth > 0
    ensures wx == r.x + boardWidth || wx == r.x - boardWidth || wx == r.x
    ensures wx == r.x + boardWidth <==> r.x < r.width
    ensures wx == r.x - boardWidth <==> r.width <= r.x && r.x > boardWidth - r.width
  {
    if r.x < r.width then r.x + boardWidth
    else if r.x > boardWidth - r.width then r.x - boardWidth
    else r.x
  }

  /** Two blocks collide when their rectangles overlap as they stand, or when
      they overlap after each has been given its wrapped x. */
  predicate Collision(boardWidth: int, a: Rect, b: Rect)
    requires boardWidth > 0
    ensures Overlaps(a, b) ==> Collision(boardWidth, a, b)
    ensures Collision(boardWidth, a, b) ==> IntervalsOverlap(a.y, a.height, b.y, b.height)
  {
    Overlaps(a, b) ||
    (IntervalsOverlap(WrappedX(boardWidth, a), a.width, WrappedX(boardWidth, b), b.width) &&
     IntervalsOverlap(a.y, a.height, b.y, b.height))
  }

  lemma IntervalsOverlapSymmetric(ax: int, aw: int, bx: int, bw: int)
    ensures IntervalsOverlap(ax, aw, bx, bw) == IntervalsOverlap(bx, bw, ax, aw)
  {
  }

  /** Collision does not depend on the order of its arguments. */
  lemma CollisionSymmetric(boardWidth: int, a: Rect, b: Rect)
    requires boardWidth > 0
    ensures Collision(boardWidth, a, b) == Collision(boardWidth, b, a)
  {
    IntervalsOverlapSymmetric(a.x, a.width, b.x, b.width);
    IntervalsOverlapSymmetric(a.y, a.height, b.y, b.height);
    IntervalsOverlapSymmetric(WrappedX(boardWidth, a), a.width, WrappedX(boardWidth, b), b.width);
  }

  /** Some member of s collides with the rectangle e. */
  ghost predicate HitsAny(boardWidth: int, e: Rect, s: set<Block>)
    requires boardWidth > 0
    reads s
  {
    exists b :: b in s && Collision(boardWidth, e, b.Bounds())
  }

  /** The members of s that collide with the rectangle e. */
  ghost function Colliding(boardWidth: int, e: Rect, s: set<Block>): (hits: set<Block>)
    requires boardWidth > 0
    reads s
    ensures hits <= s
    ensures forall b :: b in s ==> (b in hits <==> Collision(boardWidth, e, b.Bounds()))
  {
    set b | b in s && Collision(boardWidth, e, b.Bounds())
  }

  /** The rectangles of the blocks of s, as a value. */
  ghost function BoundsOf(s: set<Block>): (at: map<Block, Rect>)
    reads s
    ensures at.Keys == s && forall b :: b in s ==> at[b] == b.Bounds()
  {
    map b | b in s :: b.Bounds()
  }

  /** The members of s whose rectangle, as the map at records it, collides
      with e. */
  function CollidingAt(boardWidth: int, e: Rect, s: set<Block>, at: map<Block, Rect>): set<Block>
    requires boardWidth > 0 && s <= at.Keys
  {
    set b | b in s && Collision(boardWidth, e, at[b])
  }

  /** Some member of s collides with e, by the rectangles at records. */
  predicate HitsAnyAt(boardWidth: int, e: Rect, s: set<Block>, at: map<Block, Rect>)
    requires boardWidth > 0 && s <= at.Keys
  {
    exists b :: b in s && Collision(boardWidth, e, at[b])
  }

  /** Adding one block to the searched set adds it to the colliding blocks
      exactly when it collides. */
  lemma CollidingAtAdd(boardWidth: int, e: Rect, s: set<Block>, at: map<Block, Rect>, b: Block)
    requires boardWidth > 0 && s <= at.Keys && b in at && b !in s
    ensures Collision(boardWidth, e, at[b]) ==>
      CollidingAt(boardWidth, e, s + {b}, at) == CollidingAt(boardWidth, e, s, at) + {b} &&
      |CollidingAt(boardWidth, e, s + {b}, at)| == |CollidingAt(boardWidth, e, s, at)| + 1
    ensures !Collision(boardWidth, e, at[b]) ==>
      CollidingAt(boardWidth, e, s + {b}, at) == CollidingAt(boardWidth, e, s, at)
  {
    assert b !in CollidingAt(boardWidth, e, s, at);
  }

  /** Searching the snapshot finds the same blocks as searching the heap. */
  lemma CollidingAtBounds(boardWidth: int, e: Rect, s: set<Block>)
    requires boardWidth > 0
    ensures CollidingAt(boardWidth, e, s, BoundsOf(s)) == Colliding(boardWidth, e, s)
    ensures HitsAnyAt(boardWidth, e, s, BoundsOf(s)) == HitsAny(boardWidth, e, s)
  {
  }

  /** Looks through s, in no particular order, for a block that collides
      with e and returns the first one found, or null when there is none.
      Nothing is modified. */
  method CheckCollisionWithSet(boardWidth: int, e: Rect, s: set<Block>) returns (hit: Block?)
    requires boardWidth > 0
    ensures hit == null <==> forall b :: b in s ==> !Collision(boardWidth, e, b.Bounds())
    ensures hit != null ==> hit in s && Collision(boardWidth, e, hit.Bounds())
  {
    var rest := s;
    while rest != {}
      invariant rest <= s
      invariant forall b :: b in s && b !in rest ==> !Collision(boardWidth, e, b.Bounds())
      decreases rest
    {
      var b :| b in rest;
      if Collision(boardWidth, e, b.Bounds()) {
        return b;
      }
      rest := rest - {b};
    }
    return null;
  }
}
