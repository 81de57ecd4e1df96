/** The game state of main.js as a value, and one function per way the
    state changes: a click on the ground (queen placement), a click on a
    soil voxel (digging), a key press (view switch and queen movement) and
    an animation frame (egg laying and hatching). The imperative model in
    colony.dfy is proved to follow these functions step by step. */
module World {
  import opened Brood

  /** undergroundWidth and undergroundHeight: the voxel grid is 20 by 10. */
  const Width: int := 20
  const Height: int := 10

  /** EGG_LAY_INTERVAL: seconds of underground time between two eggs. */
  const EggLayInterval: real := 5.0

  /** The entry carved on the first descent: Math.floor(undergroundWidth / 2), row 0. */
  const EntryX: int := Width / 2
  const EntryY: int := 0

  /** A grid coordinate (x, y); y grows downward. */
  type Cell = (int, int)

  datatype View = Surface | Underground

  /** The keys the keydown handler distinguishes. */
  datatype Key = Tab | ArrowUp | ArrowDown | ArrowLeft | ArrowRight | OtherKey

  /** soil: the cells still holding a voxel (voxelGrid[y][x] !== null);
      queenPlaced: queenMesh exists; queenVisible: queenMesh.visible;
      queenGridX/Y: the queen's grid position, -1 until her first descent. */
  datatype State = State(
    soil: set<Cell>,
    view: View,
    queenPlaced: bool,
    queenVisible: bool,
    queenGridX: int,
    queenGridY: int,
    eggs: seq<Egg>,
    timeSinceLastEgg: real)

  predicate InBounds(x: int, y: int)
  {
    0 <= x < Width && 0 <= y < Height
  }

  /** Every cell of the grid. */
  function FullGrid(): set<Cell>
  {
    set x, y | 0 <= x < Width && 0 <= y < Height :: (x, y)
  }

  predicate Positioned(s: State)
  {
    s.queenGridX != -1 && s.queenGridY != -1
  }

  /** The invariant every reachable state keeps: the grid never grows, a
      positioned queen stands on an empty in-bounds cell, in underground
      view a placed queen is positioned and visible, on the surface a
      positioned queen is hidden, the laying timer stays below the interval
      and every egg still waiting has a timer in (0, EggHatchTime]. */
  ghost predicate Valid(s: State)
  {
    && s.soil <= FullGrid()
    && (s.queenGridX == -1 <==> s.queenGridY == -1)
    && (Positioned(s) ==> s.queenPlaced && InBounds(s.queenGridX, s.queenGridY)
                          && (s.queenGridX, s.queenGridY) !in s.soil)
    && (s.queenPlaced && s.view == Underground ==> Positioned(s) && s.queenVisible)
    && (s.view == Surface && Positioned(s) ==> !s.queenVisible)
    && 0.0 <= s.timeSinceLastEgg < EggLayInterval
    && forall i :: 0 <= i < |s.eggs| ==> 0.0 < s.eggs[i].hatchTimer <= EggHatchTime
  }

  /** The state after init(): all soil, surface view, no queen, no eggs. */
  function Init(): (s: State)
    ensures Valid(s)
    ensures forall x, y :: InBounds(x, y) ==> (x, y) in s.soil
    ensures !s.queenPlaced && !Positioned(s) && s.eggs == []
  {
    State(FullGrid(), Surface, false, false, -1, -1, [], 0.0)
  }

  /** A click that hits the ground plane: creates the queen, once, and only
      in surface view. A new mesh is visible. */
  function PlaceQueen(s: State): State
  {
    if s.queenPlaced || s.view != Surface then s
    else s.(queenPlaced := true, queenVisible := true)
  }

  /** A click that hits the voxel at (x, y): with a queen and in underground
      view the voxel is removed; otherwise nothing happens. */
  function Dig(s: State, x: int, y: int): State
  {
    if s.queenPlaced && s.view == Underground && (x, y) in s.soil
    then s.(soil := s.soil - {(x, y)})
    else s
  }

  /** moveQueenUnderground(dx, dy): refused unless the queen is positioned,
      refused if the target leaves the grid or holds soil. */
  function Move(s: State, dx: int, dy: int): State
  {
    if !s.queenPlaced || s.queenGridX == -1 || s.queenGridY == -1 then s
    else
      var tx, ty := s.queenGridX + dx, s.queenGridY + dy;
      if !InBounds(tx, ty) then s
      else if (tx, ty) in s.soil then s
      else s.(queenGridX := tx, queenGridY := ty)
  }

  /** switchView(): toggles the view. Going down with a queen positions her
      at the entry on her first descent, carving that cell, and shows her;
      going up hides her. */
  function SwitchView(s: State): State
  {
    if s.view == Surface then
      var down := s.(view := Underground);
      if !s.queenPlaced then down
      else if s.queenGridX == -1 || s.queenGridY == -1 then
        down.(soil := s.soil - {(EntryX, EntryY)},
              queenGridX := EntryX, queenGridY := EntryY, queenVisible := true)
      else down.(queenVisible := true)
    else
      s.(view := Surface, queenVisible := if s.queenPlaced then false else s.queenVisible)
  }

  /** The step an arrow key asks for; (0, 0) for any other key. Up is one
      row toward y = 0 (the surface), Down one row deeper. */
  function KeyStep(k: Key): (d: (int, int))
    ensures d != (0, 0) <==> k in {ArrowUp, ArrowDown, ArrowLeft, ArrowRight}
    ensures d.0 == 0 || d.1 == 0
    ensures -1 <= d.0 <= 1 && -1 <= d.1 <= 1
    ensures k == ArrowUp ==> d == (0, -1)
    ensures k == ArrowDown ==> d == (0, 1)
    ensures k == ArrowLeft ==> d == (-1, 0)
    ensures k == ArrowRight ==> d == (1, 0)
  {
    match k
    case ArrowUp => (0, -1)
    case ArrowDown => (0, 1)
    case ArrowLeft => (-1, 0)
    case ArrowRight => (1, 0)
    case _ => (0, 0)
  }

  /** The arrow key for the opposite direction. */
  function Opposite(k: Key): Key
  {
    match k
    case ArrowUp => ArrowDown
    case ArrowDown => ArrowUp
    case ArrowLeft => ArrowRight
    case ArrowRight => ArrowLeft
    case _ => k
  }

  /** onKeyDown: Tab switches the view first; then, underground with a
      visible queen, an arrow key moves her one cell. */
  function KeyDown(s: State, k: Key): State
  {
    var s1 := if k == Tab then SwitchView(s) else s;
    if s1.view == Underground && s1.queenPlaced && s1.queenVisible then
      var d := KeyStep(k);
      if d.0 != 0 || d.1 != 0 then Move(s1, d.0, d.1) else s1
    else s1
  }

  /** layEgg(): appends one egg with a full hatch timer, only underground
      with a positioned queen. */
  function LayEgg(s: State): State
  {
    if s.view != Underground || !s.queenPlaced || s.queenGridX == -1 then s
    else s.(eggs := s.eggs + [Egg(EggHatchTime)])
  }

  /** The laying part of one animate() frame lasting dt seconds: the timer
      runs only underground with a visible queen, and on reaching the
      interval an egg is laid and the timer restarts. */
  function LayingTimer(s: State, dt: real): State
  {
    if s.view == Underground && s.queenPlaced && s.queenVisible then
      var t := s.timeSinceLastEgg + dt;
      if t >= EggLayInterval then LayEgg(s).(timeSinceLastEgg := 0.0)
      else s.(timeSinceLastEgg := t)
    else s
  }

  /** The update part of one animate() frame lasting dt seconds: the laying
      timer, then every egg is aged by dt and the hatched ones are removed. */
  function Tick(s: State, dt: real): State
  {
    var s1 := LayingTimer(s, dt);
    s1.(eggs := Survivors(s1.eggs, dt))
  }

  /** The inputs that drive the game: a click on the ground, a click on a
      voxel, a key press and an animation frame. */
  datatype Event = GroundClick | VoxelClick(x: int, y: int) | KeyPress(key: Key) | Frame(dt: real)

  function Step(s: State, e: Event): State
  {
    match e
    case GroundClick => PlaceQueen(s)
    case VoxelClick(x, y) => Dig(s, x, y)
    case KeyPress(k) => KeyDown(s, k)
    case Frame(dt) => Tick(s, dt)
  }

  /** Frame durations come from a clock and are never negative. */
  predicate WellTimed(es: seq<Event>)
  {
    forall i :: 0 <= i < |es| ==> es[i].Frame? ==> es[i].dt >= 0.0
  }

  function Run(s: State, es: seq<Event>): State
    decreases es
  {
    if es == [] then s else Run(Step(s, es[0]), es[1..])
  }
}
