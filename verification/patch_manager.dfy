/**
 * The patch manager (`src/PatchManager.ts`): builds a 2×2 block of patches
 * wired to five shared knots, finds the knot nearest to the pointer, and
 * routes the mouse events either to the selected knot or to every patch.
 *
 * Patches and knots are referred to by their index in the manager's lists;
 * both lists only ever grow, so an index stays valid. Knot operations return
 * their patch calls as a log (see `KnotPoints`), and the manager passes that
 * log on.
 */
module PatchManagers {
  import opened Options
  import opened Points
  import opened Nearest
  import BP = BezierPatches
  import opened KnotPoints

  datatype Manager = Manager(patches: seq<BP.Patch>, knots: seq<Knot>, selectedKnot: Option<nat>)

  /** The manager after an operation, with the patch calls its knots issued. */
  datatype ManagerStep = ManagerStep(manager: Manager, calls: seq<PatchCall>)

  /** What `createPatchGrid` hands back: the 2×2 patch handles by [row][col], and the call log. */
  datatype GridResult = GridResult(manager: Manager, grid: seq<seq<nat>>, calls: seq<PatchCall>)

  /** The nearest knot: its index and squared distance. */
  datatype NearestKnot = NearestKnot(index: nat, dist2: real)

  const White: Color := Color(255.0, 255.0, 255.0, 1.0)

  /** Every patch is valid, every connection names an existing patch, and the selected knot exists. */
  predicate Valid(m: Manager)
  {
    && (forall i :: 0 <= i < |m.patches| ==> BP.Valid(m.patches[i]))
    && (forall k, c :: 0 <= k < |m.knots| && 0 <= c < |m.knots[k].connections| ==>
          m.knots[k].connections[c].patch < |m.patches|)
    && (m.selectedKnot.Some? ==> m.selectedKnot.value < |m.knots|)
  }

  const Empty: Manager := Manager([], [], None)

  // ---------------------------------------------------------------------------
  // Building the block

  /** Patch [row][col] of the block: origin (x + col·pw, y + row·ph), size pw × ph. */
  function BlockPatch(x: real, y: real, pw: real, ph: real, row: nat, col: nat): (p: BP.Patch)
    ensures BP.Valid(p)
    ensures CornersAt(p, x + col as real * pw, y + row as real * ph, pw, ph)
  {
    BP.NewPatchCorners(x + col as real * pw, y + row as real * ph, pw, ph);
    BP.NewPatch(x + col as real * pw, y + row as real * ph, pw, ph)
  }

  /** The four patches of the block in the order the source's two loops push them: the i-th is [i / 2][i % 2]. */
  function BlockPatches(x: real, y: real, pw: real, ph: real): (ps: seq<BP.Patch>)
    ensures |ps| == 4
    ensures forall i :: 0 <= i < 4 ==> BP.Valid(ps[i])
  {
    seq(4, i requires 0 <= i < 4 => BlockPatch(x, y, pw, ph, i / 2, i % 2))
  }

  /**
   * The five knots of a block whose patches start at handle b, in the order
   * the source pushes them, each with its connections in `addConnection`
   * order: centre (white), top-middle (the top-right corner's green),
   * bottom-middle and right-middle (the bottom-right corner's blue), and
   * left-middle (the bottom-left corner's yellow).
   */
  function BlockKnots(x: real, y: real, pw: real, ph: real, b: nat): (ks: seq<Knot>)
    ensures |ks| == 5
    ensures forall k :: 0 <= k < |ks| ==> |ks[k].connections| >= 2
    ensures ks[0].x == x + pw && ks[0].y == y + ph && ks[0].color == White
    ensures ks[1].x == x + pw && ks[1].y == y && ks[1].color == BP.Green
    ensures ks[2].x == x + pw && ks[2].y == y + ph * 2.0 && ks[2].color == BP.Blue
    ensures ks[3].x == x && ks[3].y == y + ph && ks[3].color == BP.Yellow
    ensures ks[4].x == x + pw * 2.0 && ks[4].y == y + ph && ks[4].color == BP.Blue
  {
    [ Knot(x + pw, y + ph, White,
        [Connection(3, 3, b), Connection(3, 0, b + 1), Connection(0, 3, b + 2), Connection(0, 0, b + 3)]),
      Knot(x + pw, y, BP.Green, [Connection(0, 3, b), Connection(0, 0, b + 1)]),
      Knot(x + pw, y + ph * 2.0, BP.Blue, [Connection(3, 3, b + 2), Connection(3, 0, b + 3)]),
      Knot(x, y + ph, BP.Yellow, [Connection(3, 0, b), Connection(0, 0, b + 2)]),
      Knot(x + pw * 2.0, y + ph, BP.Blue, [Connection(3, 3, b + 1), Connection(0, 3, b + 3)]) ]
  }

  /** The forced colour refresh: every knot re-applies its own colour, knot by knot, in list order. */
  function RefreshColors(ks: seq<Knot>): (calls: seq<PatchCall>)
    ensures forall i :: 0 <= i < |calls| ==> calls[i].UpdateKnotColor?
    decreases |ks|
  {
    if |ks| == 0 then []
    else
      var k := ks[|ks| - 1];
      RefreshColors(ks[..|ks| - 1]) + SetColor(k, GetColor(k)).calls
  }

  /** The number of connections of all knots of `ks`. */
  function ConnectionCount(ks: seq<Knot>): nat
    decreases |ks|
  {
    if |ks| == 0 then 0 else ConnectionCount(ks[..|ks| - 1]) + |ks[|ks| - 1].connections|
  }

  /**
   * `createPatchGrid`: appends the four patches of the block in row-major
   * order, appends the five knots, then refreshes the colour of every knot of
   * the manager (earlier ones included). The refresh stores each knot's own
   * colour again, so the knots are as built (`SetColorToCurrent`); its calls
   * on the patches are only logged.
   */
  function CreatePatchGrid(m: Manager, x: real, y: real, pw: real, ph: real): (r: GridResult)
    requires Valid(m)
    ensures Valid(r.manager)
    ensures r.manager.patches == m.patches + BlockPatches(x, y, pw, ph)
    ensures r.grid == [[|m.patches|, |m.patches| + 1], [|m.patches| + 2, |m.patches| + 3]]
    ensures r.manager.knots == m.knots + BlockKnots(x, y, pw, ph, |m.patches|)
    ensures r.manager.selectedKnot == m.selectedKnot
    ensures r.calls == RefreshColors(r.manager.knots)
  {
    var b := |m.patches|;
    var patches := m.patches + BlockPatches(x, y, pw, ph);
    var knots := m.knots + BlockKnots(x, y, pw, ph, b);
    GridResult(Manager(patches, knots, m.selectedKnot), [[b, b + 1], [b + 2, b + 3]], RefreshColors(knots))
  }

  // ---------------------------------------------------------------------------
  // Nearest knot and the mouse handlers

  function KnotDist2(k: Knot, x: real, y: real): real
  {
    Dist2(k.x, k.y, x, y)
  }

  /** `findNearestKnot`: nothing when there are no knots, otherwise the first knot of least distance. */
  function FindNearestKnot(m: Manager, x: real, y: real): (r: Option<NearestKnot>)
    ensures r.None? <==> |m.knots| == 0
    ensures r.Some? ==>
      && r.value.index < |m.knots|
      && r.value.dist2 == KnotDist2(m.knots[r.value.index], x, y)
      && (forall j :: 0 <= j < |m.knots| ==> r.value.dist2 <= KnotDist2(m.knots[j], x, y))
      && (forall j :: 0 <= j < r.value.index ==> r.value.dist2 < KnotDist2(m.knots[j], x, y))
  {
    if |m.knots| == 0 then None
    else
      var ds := seq(|m.knots|, j requires 0 <= j < |m.knots| => KnotDist2(m.knots[j], x, y));
      var k := FirstMin(ds);
      assert forall j :: 0 <= j < |m.knots| ==> ds[j] == KnotDist2(m.knots[j], x, y);
      Some(NearestKnot(k, ds[k]))
  }

  /** Some knot is within the hit radius of (x, y). */
  ghost predicate KnotHit(m: Manager, x: real, y: real)
  {
    exists j :: 0 <= j < |m.knots| && KnotDist2(m.knots[j], x, y) < HitRadius2
  }

  /**
   * `handleMouseDown`: a knot within the hit radius wins: the first nearest one
   * is selected and no patch is consulted. Otherwise every patch runs its own
   * hit test (several may start dragging at once).
   */
  function HandleMouseDown(m: Manager, x: real, y: real): (r: Manager)
    requires Valid(m)
    ensures Valid(r)
    ensures r.knots == m.knots
    ensures KnotHit(m, x, y) ==>
      && r.patches == m.patches
      && r.selectedKnot.Some?
      && KnotDist2(m.knots[r.selectedKnot.value], x, y) < HitRadius2
      && (forall j :: 0 <= j < |m.knots| ==> KnotDist2(m.knots[r.selectedKnot.value], x, y) <= KnotDist2(m.knots[j], x, y))
      && (forall j :: 0 <= j < r.selectedKnot.value ==> KnotDist2(m.knots[r.selectedKnot.value], x, y) < KnotDist2(m.knots[j], x, y))
    ensures !KnotHit(m, x, y) ==>
      && r.selectedKnot == m.selectedKnot
      && |r.patches| == |m.patches|
      && forall i :: 0 <= i < |m.patches| ==> r.patches[i] == BP.HandleMouseDown(m.patches[i], x, y)
  {
    var n := FindNearestKnot(m, x, y);
    if n.Some? && n.value.dist2 < HitRadius2 then
      m.(selectedKnot := Some(n.value.index))
    else
      m.(patches := seq(|m.patches|, i requires 0 <= i < |m.patches| => BP.HandleMouseDown(m.patches[i], x, y)))
  }

  /**
   * `handleMouseMove`: with a selected knot, only that knot moves (its patch
   * calls are the log) and no patch sees the event; otherwise every patch
   * handles it and nothing is logged.
   */
  function HandleMouseMove(m: Manager, x: real, y: real): (r: ManagerStep)
    requires Valid(m)
    ensures Valid(r.manager)
    ensures r.manager.selectedKnot == m.selectedKnot && |r.manager.knots| == |m.knots|
    ensures m.selectedKnot.Some? ==>
      var s := m.selectedKnot.value;
      && r.manager.patches == m.patches
      && r.manager.knots[s] == SetPosition(m.knots[s], x, y).knot
      && (forall j :: 0 <= j < |m.knots| && j != s ==> r.manager.knots[j] == m.knots[j])
      && r.calls == SetPosition(m.knots[s], x, y).calls
    ensures m.selectedKnot.None? ==>
      && r.manager.knots == m.knots && r.calls == []
      && |r.manager.patches| == |m.patches|
      && forall i :: 0 <= i < |m.patches| ==> r.manager.patches[i] == BP.HandleMouseMove(m.patches[i], x, y)
  {
    if m.selectedKnot.Some? then
      var s := m.selectedKnot.value;
      var u := SetPosition(m.knots[s], x, y);
      ManagerStep(m.(knots := m.knots[s := u.knot]), u.calls)
    else
      ManagerStep(m.(patches := seq(|m.patches|, i requires 0 <= i < |m.patches| => BP.HandleMouseMove(m.patches[i], x, y))), [])
  }

  /** `handleMouseUp`: drop the knot selection and let every patch release. */
  function HandleMouseUp(m: Manager): (r: Manager)
    ensures r.selectedKnot == None && r.knots == m.knots && |r.patches| == |m.patches|
    ensures forall i :: 0 <= i < |m.patches| ==>
      !r.patches[i].dragging && r.patches[i].selected == None
      && r.patches[i].cp == m.patches[i].cp && r.patches[i].hovered == m.patches[i].hovered
    ensures Valid(m) ==> Valid(r)
  {
    Manager(seq(|m.patches|, i requires 0 <= i < |m.patches| => BP.HandleMouseUp(m.patches[i])), m.knots, None)
  }

  // ---------------------------------------------------------------------------
  // Properties of the block

  /** The five knots carry 4, 2, 2, 2 and 2 connections, all on corner slots of the block's four patches. */
  lemma BlockKnotConnections(x: real, y: real, pw: real, ph: real, b: nat)
    ensures var ks := BlockKnots(x, y, pw, ph, b);
      |ks| == 5 && |ks[0].connections| == 4 && |ks[1].connections| == 2 && |ks[2].connections| == 2
      && |ks[3].connections| == 2 && |ks[4].connections| == 2
    ensures var ks := BlockKnots(x, y, pw, ph, b);
      forall k, c :: 0 <= k < 5 && 0 <= c < |ks[k].connections| ==>
        var conn := ks[k].connections[c];
        BP.IsCorner(conn.row, conn.col) && b <= conn.patch < b + 4
  {
  }

  /** The slot (patch, row, col) a connection claims. */
  function Claim(c: Connection): (nat, int, int)
  {
    (c.patch, c.row, c.col)
  }

  /**
   * The knot and connection that claim a slot of the block starting at
   * handle b, read off the wiring table; (5, 0) for a slot no knot claims.
   */
  function ClaimOwner(b: nat, s: (nat, int, int)): (nat, nat)
  {
    if s == (b, 3, 3) then (0, 0) else if s == (b + 1, 3, 0) then (0, 1)
    else if s == (b + 2, 0, 3) then (0, 2) else if s == (b + 3, 0, 0) then (0, 3)
    else if s == (b, 0, 3) then (1, 0) else if s == (b + 1, 0, 0) then (1, 1)
    else if s == (b + 2, 3, 3) then (2, 0) else if s == (b + 3, 3, 0) then (2, 1)
    else if s == (b, 3, 0) then (3, 0) else if s == (b + 2, 0, 0) then (3, 1)
    else if s == (b + 1, 3, 3) then (4, 0) else if s == (b + 3, 0, 3) then (4, 1)
    else (5, 0)
  }

  /** Every connection of the block is the one `ClaimOwner` names for its slot. */
  lemma ClaimOwnerInverts(x: real, y: real, pw: real, ph: real, b: nat, k: nat, c: nat)
    requires k < 5 && c < |BlockKnots(x, y, pw, ph, b)[k].connections|
    ensures ClaimOwner(b, Claim(BlockKnots(x, y, pw, ph, b)[k].connections[c])) == (k, c)
  {
  }

  /**
   * No slot is claimed by two connections, and the four outer corners of the
   * block (top-left of patch b, top-right of b+1, bottom-left of b+2,
   * bottom-right of b+3) are claimed by none.
   */
  lemma BlockClaimsDistinct(x: real, y: real, pw: real, ph: real, b: nat)
    ensures var ks := BlockKnots(x, y, pw, ph, b);
      forall k1, c1, k2, c2 ::
        (&& 0 <= k1 < 5 && 0 <= c1 < |ks[k1].connections| && 0 <= k2 < 5 && 0 <= c2 < |ks[k2].connections|
         && Claim(ks[k1].connections[c1]) == Claim(ks[k2].connections[c2]))
        ==> k1 == k2 && c1 == c2
    ensures var ks := BlockKnots(x, y, pw, ph, b);
      forall k, c :: 0 <= k < 5 && 0 <= c < |ks[k].connections| ==>
        Claim(ks[k].connections[c]) !in {(b, 0, 0), (b + 1, 0, 3), (b + 2, 3, 0), (b + 3, 3, 3)}
  {
    var ks := BlockKnots(x, y, pw, ph, b);
    forall k, c | 0 <= k < 5 && 0 <= c < |ks[k].connections|
      ensures ClaimOwner(b, Claim(ks[k].connections[c])) == (k, c)
    {
      ClaimOwnerInverts(x, y, pw, ph, b, k, c);
    }
    forall k, c | 0 <= k < 5 && 0 <= c < |ks[k].connections|
      ensures Claim(ks[k].connections[c]) !in {(b, 0, 0), (b + 1, 0, 3), (b + 2, 3, 0), (b + 3, 3, 3)}
    {
      assert ClaimOwner(b, (b, 0, 0)) == (5, 0);
      assert ClaimOwner(b, (b + 1, 0, 3)) == (5, 0);
      assert ClaimOwner(b, (b + 2, 3, 0)) == (5, 0);
      assert ClaimOwner(b, (b + 3, 3, 3)) == (5, 0);
    }
  }

  /** The four corners of patch p are those of a width × height rectangle with top-left corner (ox, oy). */
  predicate CornersAt(p: BP.Patch, ox: real, oy: real, width: real, height: real)
    requires BP.WellFormed(p.cp)
  {
    && p.cp[0][0].x == ox && p.cp[0][0].y == oy
    && p.cp[0][3].x == ox + width && p.cp[0][3].y == oy
    && p.cp[3][3].x == ox + width && p.cp[3][3].y == oy + height
    && p.cp[3][0].x == ox && p.cp[3][0].y == oy + height
  }

  /** Patch [row][col] of the block starts with its corners at the rectangle its origin and size give. */
  lemma BlockPatchCorners(x: real, y: real, pw: real, ph: real, row: nat, col: nat)
    ensures CornersAt(BlockPatch(x, y, pw, ph, row, col), x + col as real * pw, y + row as real * ph, pw, ph)
  {
    BP.NewPatchCorners(x + col as real * pw, y + row as real * ph, pw, ph);
  }

  /** Connection c of knot k names an in-grid slot of patch `ps[conn.patch - b]` at the knot's position. */
  predicate OnSlot(ps: seq<BP.Patch>, b: nat, k: Knot, c: nat)
    requires forall i :: 0 <= i < |ps| ==> BP.Valid(ps[i])
    requires c < |k.connections|
  {
    var conn := k.connections[c];
    && b <= conn.patch < b + |ps| && BP.InGrid(conn.row, conn.col)
    && var cp := ps[conn.patch - b].cp;
       assert BP.Valid(ps[conn.patch - b]);
       cp[conn.row][conn.col].x == k.x && cp[conn.row][conn.col].y == k.y
  }

  /** Every knot of the manager sits on the position of each patch slot it is connected to. */
  ghost predicate KnotsOnSlots(m: Manager)
    requires Valid(m)
  {
    forall k, c :: 0 <= k < |m.knots| && 0 <= c < |m.knots[k].connections| ==> OnSlot(m.patches, 0, m.knots[k], c)
  }

  /**
   * The wiring table meets the layout: with four patches laid out as the
   * block lays them out, each of the five knots sits on every corner it is
   * connected to.
   */
  lemma WiringMeetsLayout(ps: seq<BP.Patch>, x: real, y: real, pw: real, ph: real, b: nat)
    requires |ps| == 4 && BP.Valid(ps[0]) && BP.Valid(ps[1]) && BP.Valid(ps[2]) && BP.Valid(ps[3])
    requires CornersAt(ps[0], x, y, pw, ph) && CornersAt(ps[1], x + pw, y, pw, ph)
    requires CornersAt(ps[2], x, y + ph, pw, ph) && CornersAt(ps[3], x + pw, y + ph, pw, ph)
    ensures var ks := BlockKnots(x, y, pw, ph, b);
      forall k, c :: 0 <= k < 5 && 0 <= c < |ks[k].connections| ==> OnSlot(ps, b, ks[k], c)
  {
  }

  /**
   * The patches are pushed row by row: the i-th is patch [i / 2][i % 2], a
   * fresh pw × ph patch whose corners are those of the rectangle with
   * top-left corner (x + (i % 2)·pw, y + (i / 2)·ph).
   */
  lemma BlockLayout(x: real, y: real, pw: real, ph: real, i: nat)
    requires i < 4
    ensures BP.Valid(BlockPatches(x, y, pw, ph)[i])
    ensures CornersAt(BlockPatches(x, y, pw, ph)[i], x + (i % 2) as real * pw, y + (i / 2) as real * ph, pw, ph)
  {
    BlockPatchCorners(x, y, pw, ph, i / 2, i % 2);
  }

  /** Each knot of the block sits exactly on the initial position of every patch corner it is connected to. */
  lemma BlockKnotsOnCorners(x: real, y: real, pw: real, ph: real, b: nat)
    ensures var ks := BlockKnots(x, y, pw, ph, b);
      forall k, c :: 0 <= k < 5 && 0 <= c < |ks[k].connections| ==> OnSlot(BlockPatches(x, y, pw, ph), b, ks[k], c)
  {
    var ps := BlockPatches(x, y, pw, ph);
    BlockPatchCorners(x, y, pw, ph, 0, 0);
    BlockPatchCorners(x, y, pw, ph, 0, 1);
    BlockPatchCorners(x, y, pw, ph, 1, 0);
    BlockPatchCorners(x, y, pw, ph, 1, 1);
    WiringMeetsLayout(ps, x, y, pw, ph, b);
  }

  /**
   * Building a block keeps every knot on its slots: the earlier knots refer
   * to earlier patches, which are unchanged, and the new knots sit on the
   * corners of the new patches.
   */
  lemma CreatePatchGridKeepsKnotsOnSlots(m: Manager, x: real, y: real, pw: real, ph: real)
    requires Valid(m) && KnotsOnSlots(m)
    ensures KnotsOnSlots(CreatePatchGrid(m, x, y, pw, ph).manager)
  {
    BlockKnotsOnCorners(x, y, pw, ph, |m.patches|);
    AppendKeepsKnotsOnSlots(m, BlockPatches(x, y, pw, ph), BlockKnots(x, y, pw, ph, |m.patches|));
  }

  /**
   * Appending patches, and knots that sit on slots of the appended patches,
   * keeps every knot on its slots.
   */
  lemma AppendKeepsKnotsOnSlots(m: Manager, ps: seq<BP.Patch>, ks: seq<Knot>)
    requires Valid(m) && KnotsOnSlots(m)
    requires forall i :: 0 <= i < |ps| ==> BP.Valid(ps[i])
    requires forall k, c :: 0 <= k < |ks| && 0 <= c < |ks[k].connections| ==> OnSlot(ps, |m.patches|, ks[k], c)
    ensures Valid(Manager(m.patches + ps, m.knots + ks, m.selectedKnot))
    ensures KnotsOnSlots(Manager(m.patches + ps, m.knots + ks, m.selectedKnot))
  {
    var r := Manager(m.patches + ps, m.knots + ks, m.selectedKnot);
    forall k, c | 0 <= k < |r.knots| && 0 <= c < |r.knots[k].connections|
      ensures r.knots[k].connections[c].patch < |r.patches|
    {
      if k >= |m.knots| {
        assert r.knots[k] == ks[k - |m.knots|];
        assert OnSlot(ps, |m.patches|, ks[k - |m.knots|], c);
      }
    }
    forall k, c | 0 <= k < |r.knots| && 0 <= c < |r.knots[k].connections|
      ensures OnSlot(r.patches, 0, r.knots[k], c)
    {
      if k < |m.knots| {
        assert r.knots[k] == m.knots[k];
        assert OnSlot(m.patches, 0, m.knots[k], c);
        assert r.patches[m.knots[k].connections[c].patch] == m.patches[m.knots[k].connections[c].patch];
      } else {
        var kk := ks[k - |m.knots|];
        assert r.knots[k] == kk;
        assert OnSlot(ps, |m.patches|, kk, c);
        assert r.patches[kk.connections[c].patch] == ps[kk.connections[c].patch - |m.patches|];
      }
    }
  }

  /** Knots refresh one colour update per connection. */
  lemma {:induction false} RefreshColorsCount(ks: seq<Knot>)
    ensures |RefreshColors(ks)| == ConnectionCount(ks)
    decreases |ks|
  {
    if |ks| > 0 {
      RefreshColorsCount(ks[..|ks| - 1]);
    }
  }

  /** The call is a colour update of a slot some knot of `ks` is connected to, in that knot's colour. */
  ghost predicate UpdatesSomeSlot(ks: seq<Knot>, call: PatchCall)
  {
    exists k, c :: 0 <= k < |ks| && 0 <= c < |ks[k].connections| && call == ColorUpdate(ks[k], c)
  }

  /** The colour update connection c of knot k receives. */
  function ColorUpdate(k: Knot, c: nat): PatchCall
    requires c < |k.connections|
  {
    UpdateKnotColor(k.connections[c].patch, k.connections[c].row, k.connections[c].col, k.color)
  }

  /** Every refresh call updates a slot some knot is connected to, with that knot's own colour. */
  lemma {:induction false} RefreshColorsFromKnots(ks: seq<Knot>)
    ensures forall i :: 0 <= i < |RefreshColors(ks)| ==> UpdatesSomeSlot(ks, RefreshColors(ks)[i])
    decreases |ks|
  {
    if |ks| > 0 {
      var front := ks[..|ks| - 1];
      var last := ks[|ks| - 1];
      RefreshColorsFromKnots(front);
      var calls := RefreshColors(ks);
      var head := RefreshColors(front);
      forall i | 0 <= i < |calls| ensures UpdatesSomeSlot(ks, calls[i]) {
        if i < |head| {
          assert UpdatesSomeSlot(front, head[i]);
          var k, c :| 0 <= k < |front| && 0 <= c < |front[k].connections| && head[i] == ColorUpdate(front[k], c);
          assert front[k] == ks[k];
        } else {
          var c := i - |head|;
          assert calls[i] == ColorUpdate(ks[|ks| - 1], c);
        }
      }
    }
  }

  /**
   * The refresh covers every connection of every knot, in order: knot by knot,
   * and within a knot connection by connection. Connection c of knot k gets
   * the call at position c past all the connections of the knots before k,
   * and that call sets the slot to knot k's colour.
   */
  lemma RefreshColorsInOrder(ks: seq<Knot>)
    ensures |RefreshColors(ks)| == ConnectionCount(ks)
    ensures forall k, c :: 0 <= k < |ks| && 0 <= c < |ks[k].connections| ==> ColorLoggedAt(RefreshColors(ks), ks, k, c)
  {
    RefreshColorsCount(ks);
    forall k, c | 0 <= k < |ks| && 0 <= c < |ks[k].connections|
      ensures ColorLoggedAt(RefreshColors(ks), ks, k, c)
    {
      RefreshColorsAt(ks, k, c);
    }
  }

  /**
   * The log holds connection c of knot k's colour update right after the calls
   * for all connections of the knots before k and the first c of knot k.
   */
  ghost predicate ColorLoggedAt(calls: seq<PatchCall>, ks: seq<Knot>, k: nat, c: nat)
    requires k < |ks| && c < |ks[k].connections|
  {
    var i := ConnectionCount(ks[..k]) + c;
    i < |calls| && calls[i] == ColorUpdate(ks[k], c)
  }

  /** The refresh call for connection c of knot k, at its place in the log. */
  lemma {:induction false} RefreshColorsAt(ks: seq<Knot>, k: nat, c: nat)
    requires k < |ks| && c < |ks[k].connections|
    ensures ConnectionCount(ks[..k]) + c < |RefreshColors(ks)|
    ensures RefreshColors(ks)[ConnectionCount(ks[..k]) + c] == ColorUpdate(ks[k], c)
    decreases |ks|
  {
    var n := |ks|;
    var front, last := ks[..n - 1], ks[n - 1];
    RefreshColorsCount(front);
    var head := RefreshColors(front);
    var calls := RefreshColors(ks);
    assert calls == head + SetColor(last, GetColor(last)).calls;
    if k < n - 1 {
      assert ks[..k] == front[..k];
      assert ks[k] == front[k];
      RefreshColorsAt(front, k, c);
      var i := ConnectionCount(front[..k]) + c;
      assert calls[i] == head[i];
    } else {
      assert ks[..k] == front;
      var u := SetColor(last, GetColor(last)).calls;
      assert calls[|head| + c] == u[c];
    }
  }

  /** The five knots of a block have twelve connections between them. */
  lemma BlockConnectionCount(x: real, y: real, pw: real, ph: real, b: nat)
    ensures ConnectionCount(BlockKnots(x, y, pw, ph, b)) == 12
  {
    var ks := BlockKnots(x, y, pw, ph, b);
    assert ks[..1][..0] == [];
    assert ks[..2][..1] == ks[..1];
    assert ks[..3][..2] == ks[..2];
    assert ks[..4][..3] == ks[..3];
    assert ks[..5][..4] == ks[..4] && ks[..5] == ks;
    assert ConnectionCount(ks[..1]) == 4;
    assert ConnectionCount(ks[..2]) == 6;
    assert ConnectionCount(ks[..3]) == 8;
    assert ConnectionCount(ks[..4]) == 10;
  }

  /**
   * On an empty manager, building a block gives its five knots, each on the
   * corners of the patches it is connected to, and a refresh of twelve
   * colour updates.
   */
  lemma FreshGrid(x: real, y: real, pw: real, ph: real)
    ensures var r := CreatePatchGrid(Empty, x, y, pw, ph);
      && r.manager.knots == BlockKnots(x, y, pw, ph, 0) && r.manager.selectedKnot == None
      && KnotsOnSlots(r.manager)
      && |r.calls| == 12
  {
    assert Empty.knots + BlockKnots(x, y, pw, ph, 0) == BlockKnots(x, y, pw, ph, 0);
    CreatePatchGridKeepsKnotsOnSlots(Empty, x, y, pw, ph);
    RefreshColorsCount(BlockKnots(x, y, pw, ph, 0));
    BlockConnectionCount(x, y, pw, ph, 0);
  }

  // ---------------------------------------------------------------------------
  // Properties of the handlers

  /** Releasing the mouse twice is releasing it once. */
  lemma HandleMouseUpIdempotent(m: Manager)
    ensures HandleMouseUp(HandleMouseUp(m)) == HandleMouseUp(m)
  {
    var r := HandleMouseUp(m);
    var rr := HandleMouseUp(r);
    forall i | 0 <= i < |m.patches| ensures rr.patches[i] == r.patches[i] {
      BP.HandleMouseUpIdempotent(m.patches[i]);
    }
  }

  /**
   * The demo scenario on a manager holding a block of 100 × 100 patches at
   * the origin: pressing on the centre knot selects it, and dragging it to
   * (120, 130) sends a position update to corner (3,3) of patch 0, (3,0) of
   * patch 1, (0,3) of patch 2 and (0,0) of patch 3, and moves no patch.
   */
  lemma DragCenterKnot(m: Manager)
    requires Valid(m) && m.knots == BlockKnots(0.0, 0.0, 100.0, 100.0, 0)
    ensures var down := HandleMouseDown(m, 100.0, 100.0);
      var step := HandleMouseMove(down, 120.0, 130.0);
      && down.selectedKnot == Some(0)
      && step.manager.patches == m.patches
      && step.manager.knots[0].x == 120.0 && step.manager.knots[0].y == 130.0
      && PositionUpdates(step.calls) == [
           UpdateKnotPosition(0, 3, 3, 120.0, 130.0), UpdateKnotPosition(1, 3, 0, 120.0, 130.0),
           UpdateKnotPosition(2, 0, 3, 120.0, 130.0), UpdateKnotPosition(3, 0, 0, 120.0, 130.0)]
  {
    PressCenterKnot(m);
    DragSelectedCenterKnot(HandleMouseDown(m, 100.0, 100.0));
  }

  /** Pressing exactly on the centre knot of the block selects it and leaves the patches alone. */
  lemma PressCenterKnot(m: Manager)
    requires Valid(m) && m.knots == BlockKnots(0.0, 0.0, 100.0, 100.0, 0)
    ensures HandleMouseDown(m, 100.0, 100.0) == m.(selectedKnot := Some(0))
  {
    var ks := m.knots;
    assert KnotDist2(ks[0], 100.0, 100.0) == 0.0;
    assert forall j :: 1 <= j < 5 ==> KnotDist2(ks[j], 100.0, 100.0) == 10000.0;
    assert KnotHit(m, 100.0, 100.0);
  }

  /** Dragging the selected centre knot to (120, 130) moves it and updates its four corner slots. */
  lemma DragSelectedCenterKnot(m: Manager)
    requires Valid(m) && m.knots == BlockKnots(0.0, 0.0, 100.0, 100.0, 0) && m.selectedKnot == Some(0)
    ensures var step := HandleMouseMove(m, 120.0, 130.0);
      && step.manager.patches == m.patches
      && step.manager.knots[0].x == 120.0 && step.manager.knots[0].y == 130.0
      && PositionUpdates(step.calls) == [
           UpdateKnotPosition(0, 3, 3, 120.0, 130.0), UpdateKnotPosition(1, 3, 0, 120.0, 130.0),
           UpdateKnotPosition(2, 0, 3, 120.0, 130.0), UpdateKnotPosition(3, 0, 0, 120.0, 130.0)]
  {
    var step := HandleMouseMove(m, 120.0, 130.0);
    assert |PositionUpdates(step.calls)| == 4;
  }
}
