/** The module-level state of main.js and the handlers that update it in
    place. Each method is proved to move the state exactly as the matching
    function of World does, so everything proved in Laws holds of it. */
module Game {
  import opened Brood
  import opened World
  import Laws

  class Colony {
    /** voxelGrid: grid[y, x] is true while the voxel at (x, y) is soil. */
    var grid: array2<bool>
    var view: View
    /** queenMesh exists, and queenMesh.visible. */
    var queenPlaced: bool
    var queenVisible: bool
    /** queenGridX/queenGridY: -1 until the queen's first descent. */
    var queenGridX: int
    var queenGridY: int
    var eggs: seq<Egg>
    var timeSinceLastEgg: real

    ghost predicate Sized()
      reads this`grid
    {
      grid.Length0 == Height && grid.Length1 == Width
    }

    /** The soil cells of the grid, as (x, y) pairs. */
    ghost function Soil(): set<Cell>
      reads this`grid, grid
      requires Sized()
    {
      set x, y | 0 <= x < Width && 0 <= y < Height && grid[y, x] :: (x, y)
    }

    ghost function State(): World.State
      reads this, grid
      requires Sized()
    {
      World.State(Soil(), view, queenPlaced, queenVisible, queenGridX, queenGridY,
                   eggs, timeSinceLastEgg)
    }

    ghost predicate Valid()
      reads this, grid
    {
      Sized() && World.Valid(State())
    }

    lemma SoilAt(x: int, y: int)
      requires Sized()
      ensures (x, y) in Soil() <==> InBounds(x, y) && grid[y, x]
    {
      if InBounds(x, y) && grid[y, x] {
        assert (x, y) in Soil();
      }
    }

    /** init() with createUnderground(): every voxel of the 20 by 10 grid is
        soil, the view is the surface and there is no queen and no egg. */
    constructor ()
      ensures Valid() && fresh(grid)
      ensures State() == World.Init()
      ensures forall y, x :: 0 <= y < Height && 0 <= x < Width ==> grid[y, x]
    {
      grid := new bool[Height, Width];
      view := Surface;
      queenPlaced, queenVisible := false, false;
      queenGridX, queenGridY := -1, -1;
      eggs := [];
      timeSinceLastEgg := 0.0;
      new;
      var y := 0;
      while y < Height
        invariant 0 <= y <= Height
        modifies grid
        invariant forall j, i :: 0 <= j < y && 0 <= i < Width ==> grid[j, i]
      {
        var x := 0;
        while x < Width
          invariant 0 <= x <= Width
          modifies grid
          invariant forall j, i :: 0 <= j < y && 0 <= i < Width ==> grid[j, i]
          invariant forall i :: 0 <= i < x ==> grid[y, i]
        {
          grid[y, x] := true;
          x := x + 1;
        }
        y := y + 1;
      }
      forall c | c in FullGrid() ensures c in Soil() {
        SoilAt(c.0, c.1);
      }
    }

    /** createQueen() reached from a click on the ground plane: only one
        queen, and only in surface view. */
    method PlaceQueen()
      requires Valid()
      modifies this
      ensures Valid() && grid == old(grid)
      ensures State() == World.PlaceQueen(old(State()))
    {
      if !queenPlaced && view == Surface {
        queenPlaced := true;
        queenVisible := true;
      }
    }

    /** The digging branch of onClick for the voxel at (x, y): with a queen
        and in underground view, a soil voxel becomes empty. */
    method DigAt(x: int, y: int)
      requires Valid()
      modifies grid
      ensures Valid()
      ensures State() == World.Dig(old(State()), x, y)
    {
      SoilAt(x, y);
      if queenPlaced && view == Underground && 0 <= x < Width && 0 <= y < Height && grid[y, x] {
        grid[y, x] := false;
        forall c | c in old(Soil()) - {(x, y)} ensures c in Soil() {
          SoilAt(c.0, c.1);
        }
        forall c | c in Soil() ensures c in old(Soil()) - {(x, y)} {
          SoilAt(c.0, c.1);
        }
      }
      Laws.DigKeepsValid(old(State()), x, y);
    }

    /** moveQueenUnderground(dx, dy). */
    method MoveQueen(dx: int, dy: int)
      requires Valid()
      modifies this
      ensures Valid() && grid == old(grid)
      ensures State() == World.Move(old(State()), dx, dy)
    {
      Laws.MoveKeepsValid(State(), dx, dy);
      if !queenPlaced || queenGridX == -1 || queenGridY == -1 {
        return;
      }
      var targetX, targetY := queenGridX + dx, queenGridY + dy;
      if targetX < 0 || targetX >= Width || targetY < 0 || targetY >= Height {
        return;
      }
      SoilAt(targetX, targetY);
      if grid[targetY, targetX] {
        return;
      }
      queenGridX, queenGridY := targetX, targetY;
    }

    /** switchView(). */
    method SwitchView()
      requires Valid()
      modifies this, grid
      ensures Valid() && grid == old(grid)
      ensures State() == World.SwitchView(old(State()))
    {
      Laws.SwitchViewKeepsValid(State());
      if view == Surface {
        view := Underground;
        if queenPlaced {
          if queenGridX == -1 || queenGridY == -1 {
            var startX, startY := EntryX, EntryY;
            SoilAt(startX, startY);
            if grid[startY, startX] {
              grid[startY, startX] := false;
              forall c | c in old(Soil()) - {(startX, startY)} ensures c in Soil() {
                SoilAt(c.0, c.1);
              }
              forall c | c in Soil() ensures c in old(Soil()) - {(startX, startY)} {
                SoilAt(c.0, c.1);
              }
            }
            queenGridX, queenGridY := startX, startY;
          }
          queenVisible := true;
        }
      } else {
        view := Surface;
        if queenPlaced {
          queenVisible := false;
        }
      }
    }

    /** onKeyDown(key). */
    method OnKeyDown(key: Key)
      requires Valid()
      modifies this, grid
      ensures Valid() && grid == old(grid)
      ensures State() == World.KeyDown(old(State()), key)
    {
      if key == Tab {
        SwitchView();
      }
      if view == Underground && queenPlaced && queenVisible {
        var d := KeyStep(key);
        if d.0 != 0 || d.1 != 0 {
          MoveQueen(d.0, d.1);
        }
      }
    }

    /** layEgg(): appends one egg with a full timer, only underground with a
        positioned queen. A step of Tick, not an entry point: Tick restores
        Valid() around it. */
    method LayEgg()
      requires Sized()
      modifies this`eggs
      ensures State() == World.LayEgg(old(State()))
    {
      if view != Underground || !queenPlaced || queenGridX == -1 {
        return;
      }
      eggs := eggs + [Egg(EggHatchTime)];
    }

    /** hatchEgg(egg, index): the egg at `index` leaves the brood. A step of
        HatchPass within Tick, not an entry point. */
    method HatchEgg(index: int)
      requires 0 <= index < |eggs|
      modifies this`eggs
      ensures eggs == old(eggs[..index] + eggs[index + 1..])
    {
      eggs := eggs[..index] + eggs[index + 1..];
    }

    /** The update part of animate() for a frame of `dt` seconds: the laying
        timer, then the hatching pass. */
    method Tick(dt: real)
      requires Valid() && dt >= 0.0
      modifies this
      ensures Valid() && grid == old(grid)
      ensures State() == World.Tick(old(State()), dt)
    {
      Laws.TickKeepsValid(State(), dt);
      AdvanceLayingTimer(dt);
      ghost var s1 := State();
      HatchPass(dt);
      assert State() == s1.(eggs := Survivors(s1.eggs, dt));
    }

    /** The laying timer of animate(). A step of Tick, not an entry point:
        Tick restores Valid() around it. */
    method AdvanceLayingTimer(dt: real)
      requires Sized()
      modifies this`eggs, this`timeSinceLastEgg
      ensures State() == World.LayingTimer(old(State()), dt)
    {
      if view == Underground && queenPlaced && queenVisible {
        timeSinceLastEgg := timeSinceLastEgg + dt;
        if timeSinceLastEgg >= EggLayInterval {
          LayEgg();
          timeSinceLastEgg := 0.0;
        }
      }
    }

    /** The tail-to-head loop of animate(): every egg's timer loses `dt` and
        each egg whose timer is then at or below zero is spliced out. A step
        of Tick, not an entry point: Tick restores Valid() around it. */
    method HatchPass(dt: real)
      modifies this`eggs
      ensures eggs == Survivors(old(eggs), dt)
    {
      ghost var laid := eggs;
      var i := |eggs| - 1;
      while i >= 0
        invariant -1 <= i < |laid|
        invariant eggs == laid[..i + 1] + Survivors(laid[i + 1..], dt)
      {
        HatchStep(laid, i, dt, eggs);
        eggs := eggs[i := Egg(eggs[i].hatchTimer - dt)];
        if eggs[i].hatchTimer <= 0.0 {
          HatchEgg(i);
        }
        i := i - 1;
      }
      assert laid[0..] == laid;
    }
  }

  /** One step of the tail-to-head pass at index i: ageing the egg in place
      and splicing it out if it hatched extends the finished part by one. */
  lemma HatchStep(laid: seq<Egg>, i: int, dt: real, eggs: seq<Egg>)
    requires 0 <= i < |laid|
    requires eggs == laid[..i + 1] + Survivors(laid[i + 1..], dt)
    ensures i < |eggs| && eggs[i] == laid[i]
    ensures var aged := eggs[i := Egg(laid[i].hatchTimer - dt)];
            && (aged[i].hatchTimer <= 0.0 ==>
                  aged[..i] + aged[i + 1..] == laid[..i] + Survivors(laid[i..], dt))
            && (aged[i].hatchTimer > 0.0 ==> aged == laid[..i] + Survivors(laid[i..], dt))
  {
    var e, done := Egg(laid[i].hatchTimer - dt), Survivors(laid[i + 1..], dt);
    var a := laid[..i];
    NextEggBack(laid, i, dt);
    assert eggs == a + [laid[i]] + done;
    Replace(a, laid[i], e, done);
    var aged := eggs[i := e];
    assert aged == a + [e] + done;
    if e.hatchTimer <= 0.0 {
      assert aged[..i] + aged[i + 1..] == a + done;
      assert Aged(laid[i], dt) == [];
    } else {
      assert Aged(laid[i], dt) == [e];
    }
  }

  /** The pass over laid[i..] is the pass over laid[i] followed by the
      pass over the part already done. */
  lemma NextEggBack(laid: seq<Egg>, i: int, dt: real)
    requires 0 <= i < |laid|
    ensures laid[..i + 1] == laid[..i] + [laid[i]]
    ensures Survivors(laid[i..], dt) == Aged(laid[i], dt) + Survivors(laid[i + 1..], dt)
  {
    assert laid[i..] == [laid[i]] + laid[i + 1..];
  }

  /** Overwriting, then splicing out, the element between a and d. */
  lemma Replace(a: seq<Egg>, x: Egg, e: Egg, d: seq<Egg>)
    ensures (a + [x] + d)[|a|] == x
    ensures (a + [x] + d)[|a| := e] == a + [e] + d
    ensures (a + [e] + d)[..|a|] + (a + [e] + d)[|a| + 1..] == a + d
  {
    assert (a + [e] + d)[..|a|] == a;
    assert (a + [e] + d)[|a| + 1..] == d;
  }
}
