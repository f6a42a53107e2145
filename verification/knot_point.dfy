/**
 * A knot (`src/KnotPoint.ts`): a shared corner of several patches. It stores a
 * position, a colour and a list of (row, col, patch) connections, and fans
 * every move or recolouring out to the connected patches.
 *
 * The patch-side methods a knot calls (`updateKnotPosition`,
 * `moveAdjacentControlPoint`, `updateKnotColor`) are not defined by the patch
 * of `src/BezierPatch.ts`, so the source throws a TypeError at the first such
 * call, after the knot has stored its new position or colour. The knot
 * operations here instead return every call the code attempts, in order, as a
 * log of `PatchCall` values, and change no patch.
 */
module KnotPoints {
  import opened Points
  import BP = BezierPatches

  /** Slot (row, col) of the patch with handle `patch` (its index in the manager's patch list). */
  datatype Connection = Connection(row: int, col: int, patch: nat)

  datatype Knot = Knot(x: real, y: real, color: Color, connections: seq<Connection>)

  /** One call a knot issues on a connected patch. */
  datatype PatchCall =
    | UpdateKnotPosition(patch: nat, row: int, col: int, x: real, y: real)
    | MoveAdjacentControlPoint(patch: nat, row: int, col: int, dx: real, dy: real)
    | UpdateKnotColor(patch: nat, row: int, col: int, color: Color)

  /** A knot after an operation, with the patch calls the operation issued. */
  datatype KnotUpdate = KnotUpdate(knot: Knot, calls: seq<PatchCall>)

  /** The `{x, y}` record `getPosition` returns. */
  datatype Position = Position(x: real, y: real)

  /** The constructor: a knot with no connections. */
  function NewKnot(x: real, y: real, color: Color): (k: Knot)
    ensures k.x == x && k.y == y && k.color == color && k.connections == []
  {
    Knot(x, y, color, [])
  }

  /** `addConnection`: appends one connection and keeps the earlier ones, in order. */
  function AddConnection(k: Knot, row: int, col: int, patch: nat): (r: Knot)
    ensures |r.connections| == |k.connections| + 1
    ensures r.connections[..|k.connections|] == k.connections
    ensures r.connections[|k.connections|] == Connection(row, col, patch)
    ensures r.x == k.x && r.y == k.y && r.color == k.color
  {
    k.(connections := k.connections + [Connection(row, col, patch)])
  }

  /**
   * The nudges issued for one connection, in the order of the source's four
   * tests: a top or bottom slot nudges its row neighbour (column 1 next to
   * column 0, column 2 otherwise), a left or right slot nudges its column
   * neighbour (row 1 next to row 0, row 2 otherwise). Every nudge carries the
   * whole delta.
   */
  function AdjacentMoves(c: Connection, dx: real, dy: real): (ms: seq<PatchCall>)
    ensures |ms| <= 4
    ensures forall i :: 0 <= i < |ms| ==>
      ms[i].MoveAdjacentControlPoint? && ms[i].patch == c.patch && ms[i].dx == dx && ms[i].dy == dy
  {
    (if c.row == 0 then [MoveAdjacentControlPoint(c.patch, c.row, if c.col == 0 then 1 else 2, dx, dy)] else [])
    + (if c.row == 3 then [MoveAdjacentControlPoint(c.patch, c.row, if c.col == 0 then 1 else 2, dx, dy)] else [])
    + (if c.col == 0 then [MoveAdjacentControlPoint(c.patch, if c.row == 0 then 1 else 2, c.col, dx, dy)] else [])
    + (if c.col == 3 then [MoveAdjacentControlPoint(c.patch, if c.row == 0 then 1 else 2, c.col, dx, dy)] else [])
  }

  /** The calls for one connection: the knot position update, then the nudges. */
  function ConnectionCalls(c: Connection, x: real, y: real, dx: real, dy: real): seq<PatchCall>
  {
    [UpdateKnotPosition(c.patch, c.row, c.col, x, y)] + AdjacentMoves(c, dx, dy)
  }

  /** The `updateKnotPosition` calls of a log, in order. */
  function PositionUpdates(calls: seq<PatchCall>): seq<PatchCall>
  {
    if |calls| == 0 then []
    else PositionUpdates(calls[..|calls| - 1]) + (if calls[|calls| - 1].UpdateKnotPosition? then [calls[|calls| - 1]] else [])
  }

  /** The calls `setPosition` issues for the connections `cs`, connection by connection. */
  function PositionCalls(cs: seq<Connection>, x: real, y: real, dx: real, dy: real): (calls: seq<PatchCall>)
    ensures |PositionUpdates(calls)| == |cs|
    ensures forall i :: 0 <= i < |cs| ==>
      PositionUpdates(calls)[i] == UpdateKnotPosition(cs[i].patch, cs[i].row, cs[i].col, x, y)
    ensures forall i :: 0 <= i < |calls| && calls[i].MoveAdjacentControlPoint? ==> calls[i].dx == dx && calls[i].dy == dy
    ensures forall i :: 0 <= i < |calls| ==> exists j :: 0 <= j < |cs| && calls[i].patch == cs[j].patch
    decreases |cs|
  {
    if |cs| == 0 then []
    else
      var front := PositionCalls(cs[..|cs| - 1], x, y, dx, dy);
      var last := cs[|cs| - 1];
      var tail := ConnectionCalls(last, x, y, dx, dy);
      PositionUpdatesAppend(front, tail);
      PositionUpdatesOfConnection(last, x, y, dx, dy);
      assert forall i :: 0 <= i < |cs| - 1 ==> cs[..|cs| - 1][i] == cs[i];
      front + tail
  }

  /** `setPosition`: the delta is new minus old; the knot moves and every connection is updated and nudged. */
  function SetPosition(k: Knot, x: real, y: real): (r: KnotUpdate)
    ensures r.knot.x == x && r.knot.y == y
    ensures r.knot.color == k.color && r.knot.connections == k.connections
    ensures |PositionUpdates(r.calls)| == |k.connections|
    ensures forall i :: 0 <= i < |k.connections| ==>
      var c := k.connections[i];
      PositionUpdates(r.calls)[i] == UpdateKnotPosition(c.patch, c.row, c.col, x, y)
    ensures forall i :: 0 <= i < |r.calls| && r.calls[i].MoveAdjacentControlPoint? ==>
      r.calls[i].dx + k.x == x && r.calls[i].dy + k.y == y
    ensures r.calls == PositionCalls(k.connections, x, y, x - k.x, y - k.y)
  {
    KnotUpdate(k.(x := x, y := y), PositionCalls(k.connections, x, y, x - k.x, y - k.y))
  }

  /** The `updateKnotColor` calls of `setColor`, one per connection, in order. */
  function ColorCalls(cs: seq<Connection>, color: Color): (calls: seq<PatchCall>)
    ensures |calls| == |cs|
    ensures forall i :: 0 <= i < |cs| ==> calls[i] == UpdateKnotColor(cs[i].patch, cs[i].row, cs[i].col, color)
    decreases |cs|
  {
    if |cs| == 0 then []
    else
      var last := cs[|cs| - 1];
      ColorCalls(cs[..|cs| - 1], color) + [UpdateKnotColor(last.patch, last.row, last.col, color)]
  }

  /** `setColor`: stores the colour and tells every connected slot, leaving position and connections alone. */
  function SetColor(k: Knot, color: Color): (r: KnotUpdate)
    ensures r.knot.color == color
    ensures r.knot.x == k.x && r.knot.y == k.y && r.knot.connections == k.connections
    ensures |r.calls| == |k.connections|
    ensures forall i :: 0 <= i < |k.connections| ==>
      r.calls[i] == UpdateKnotColor(k.connections[i].patch, k.connections[i].row, k.connections[i].col, color)
  {
    KnotUpdate(k.(color := color), ColorCalls(k.connections, color))
  }

  /** Moving the knot to the position this returns leaves the knot as it was. */
  function GetPosition(k: Knot): (p: Position)
    ensures SetPosition(k, p.x, p.y).knot == k
  {
    Position(k.x, k.y)
  }

  /** Re-applying the colour this returns leaves the knot as it was. */
  function GetColor(k: Knot): (c: Color)
    ensures SetColor(k, c).knot == k
  {
    k.color
  }

  // ---------------------------------------------------------------------------
  // Properties

  lemma {:induction false} PositionUpdatesAppend(a: seq<PatchCall>, b: seq<PatchCall>)
    ensures PositionUpdates(a + b) == PositionUpdates(a) + PositionUpdates(b)
    decreases |b|
  {
    if |b| == 0 {
      assert a + b == a;
    } else {
      var b' := b[..|b| - 1];
      assert (a + b)[..|a + b| - 1] == a + b';
      PositionUpdatesAppend(a, b');
    }
  }

  /** A connection's block of calls holds exactly one position update, for that slot. */
  lemma PositionUpdatesOfConnection(c: Connection, x: real, y: real, dx: real, dy: real)
    ensures PositionUpdates(ConnectionCalls(c, x, y, dx, dy)) == [UpdateKnotPosition(c.patch, c.row, c.col, x, y)]
  {
    var ms := AdjacentMoves(c, dx, dy);
    NoPositionUpdates(ms);
    PositionUpdatesAppend([UpdateKnotPosition(c.patch, c.row, c.col, x, y)], ms);
    assert PositionUpdates([UpdateKnotPosition(c.patch, c.row, c.col, x, y)]) == [UpdateKnotPosition(c.patch, c.row, c.col, x, y)] by {
      assert [UpdateKnotPosition(c.patch, c.row, c.col, x, y)][..0] == [];
    }
  }

  lemma {:induction false} NoPositionUpdates(ms: seq<PatchCall>)
    requires forall i :: 0 <= i < |ms| ==> !ms[i].UpdateKnotPosition?
    ensures PositionUpdates(ms) == []
    decreases |ms|
  {
    if |ms| > 0 {
      NoPositionUpdates(ms[..|ms| - 1]);
    }
  }

  /** The nudge table for the four corner slots: two nudges each, towards the corner's two edge neighbours. */
  lemma CornerNudges(patch: nat, dx: real, dy: real)
    ensures AdjacentMoves(Connection(0, 0, patch), dx, dy)
      == [MoveAdjacentControlPoint(patch, 0, 1, dx, dy), MoveAdjacentControlPoint(patch, 1, 0, dx, dy)]
    ensures AdjacentMoves(Connection(0, 3, patch), dx, dy)
      == [MoveAdjacentControlPoint(patch, 0, 2, dx, dy), MoveAdjacentControlPoint(patch, 1, 3, dx, dy)]
    ensures AdjacentMoves(Connection(3, 0, patch), dx, dy)
      == [MoveAdjacentControlPoint(patch, 3, 1, dx, dy), MoveAdjacentControlPoint(patch, 2, 0, dx, dy)]
    ensures AdjacentMoves(Connection(3, 3, patch), dx, dy)
      == [MoveAdjacentControlPoint(patch, 3, 2, dx, dy), MoveAdjacentControlPoint(patch, 2, 3, dx, dy)]
  {
  }

  /** Moving a knot to where it already is issues only zero nudges and leaves the knot as it was. */
  lemma SetPositionToCurrent(k: Knot)
    ensures SetPosition(k, k.x, k.y).knot == k
    ensures forall i :: 0 <= i < |SetPosition(k, k.x, k.y).calls| && SetPosition(k, k.x, k.y).calls[i].MoveAdjacentControlPoint? ==>
      SetPosition(k, k.x, k.y).calls[i].dx == 0.0 && SetPosition(k, k.x, k.y).calls[i].dy == 0.0
  {
  }

  /**
   * The three calls a corner connection costs: its position update, the nudge
   * of its row neighbour, then the nudge of its column neighbour.
   */
  function CornerBlock(c: Connection, x: real, y: real, dx: real, dy: real): seq<PatchCall>
  {
    [ UpdateKnotPosition(c.patch, c.row, c.col, x, y),
      MoveAdjacentControlPoint(c.patch, c.row, if c.col == 0 then 1 else 2, dx, dy),
      MoveAdjacentControlPoint(c.patch, if c.row == 0 then 1 else 2, c.col, dx, dy) ]
  }

  /** `calls` is made of one corner block per connection of `cs`, in order. */
  ghost predicate CornerBlocks(calls: seq<PatchCall>, cs: seq<Connection>, x: real, y: real, dx: real, dy: real)
  {
    && |calls| == 3 * |cs|
    && forall i :: 0 <= i < |cs| ==> calls[3 * i..3 * i + 3] == CornerBlock(cs[i], x, y, dx, dy)
  }

  lemma CornerBlocksExtend(calls: seq<PatchCall>, cs: seq<Connection>, c: Connection, x: real, y: real, dx: real, dy: real)
    requires CornerBlocks(calls, cs, x, y, dx, dy)
    ensures CornerBlocks(calls + CornerBlock(c, x, y, dx, dy), cs + [c], x, y, dx, dy)
  {
    var calls', cs' := calls + CornerBlock(c, x, y, dx, dy), cs + [c];
    forall i | 0 <= i < |cs'|
      ensures calls'[3 * i..3 * i + 3] == CornerBlock(cs'[i], x, y, dx, dy)
    {
      if i < |cs| {
        assert calls'[3 * i..3 * i + 3] == calls[3 * i..3 * i + 3];
      } else {
        assert calls'[3 * i..3 * i + 3] == CornerBlock(c, x, y, dx, dy);
      }
    }
  }

  lemma CornerConnectionCalls(c: Connection, x: real, y: real, dx: real, dy: real)
    requires BP.IsCorner(c.row, c.col)
    ensures ConnectionCalls(c, x, y, dx, dy) == CornerBlock(c, x, y, dx, dy)
  {
  }

  /**
   * When every connection is a corner slot, the log is one block of three calls
   * per connection, in connection order: the slot's position update, then the
   * nudge of its row neighbour, then the nudge of its column neighbour.
   */
  lemma {:induction false} PositionCallsAtCorners(cs: seq<Connection>, x: real, y: real, dx: real, dy: real)
    requires forall i :: 0 <= i < |cs| ==> BP.IsCorner(cs[i].row, cs[i].col)
    ensures CornerBlocks(PositionCalls(cs, x, y, dx, dy), cs, x, y, dx, dy)
    decreases |cs|
  {
    if |cs| > 0 {
      var n := |cs|;
      var front, last := cs[..n - 1], cs[n - 1];
      PositionCallsAtCorners(front, x, y, dx, dy);
      CornerConnectionCalls(last, x, y, dx, dy);
      CornerBlocksExtend(PositionCalls(front, x, y, dx, dy), front, last, x, y, dx, dy);
      assert front + [last] == cs;
    }
  }

  /**
   * A knot whose connections are all corner slots logs, for each connection in
   * turn, its position update followed by the nudges of the corner's row and
   * column neighbours, each carrying the move's delta.
   */
  lemma SetPositionAtCorners(k: Knot, x: real, y: real)
    requires forall i :: 0 <= i < |k.connections| ==> BP.IsCorner(k.connections[i].row, k.connections[i].col)
    ensures CornerBlocks(SetPosition(k, x, y).calls, k.connections, x, y, x - k.x, y - k.y)
  {
    PositionCallsAtCorners(k.connections, x, y, x - k.x, y - k.y);
  }

  /** The getters read back what the setters stored, and each setter leaves the other getter alone. */
  lemma GettersReadBack(k: Knot, x: real, y: real, color: Color)
    ensures GetPosition(SetPosition(k, x, y).knot) == Position(x, y)
    ensures GetColor(SetPosition(k, x, y).knot) == GetColor(k)
    ensures GetColor(SetColor(k, color).knot) == color
    ensures GetPosition(SetColor(k, color).knot) == GetPosition(k)
  {
  }

  /** Re-applying the current colour (as the grid builder does) leaves the knot unchanged. */
  lemma SetColorToCurrent(k: Knot)
    ensures SetColor(k, GetColor(k)).knot == k
  {
  }
}
