/** What the game state of main.js guarantees: the invariant every
    reachable state keeps, what each input may change, the round trips of
    movement and view switching, and the egg timers. */
module Laws {
  import opened Brood
  import opened World

  // ---------------------------------------------------------------------
  // The invariant

  lemma PlaceQueenKeepsValid(s: State)
    requires Valid(s)
    ensures Valid(PlaceQueen(s))
  {
  }

  lemma DigKeepsValid(s: State, x: int, y: int)
    requires Valid(s)
    ensures Valid(Dig(s, x, y))
  {
  }

  lemma MoveKeepsValid(s: State, dx: int, dy: int)
    requires Valid(s)
    ensures Valid(Move(s, dx, dy))
  {
  }

  lemma SwitchViewKeepsValid(s: State)
    requires Valid(s)
    ensures Valid(SwitchView(s))
  {
  }

  lemma KeyDownKeepsValid(s: State, k: Key)
    requires Valid(s)
    ensures Valid(KeyDown(s, k))
  {
    var s1 := if k == Tab then SwitchView(s) else s;
    SwitchViewKeepsValid(s);
    var d := KeyStep(k);
    MoveKeepsValid(s1, d.0, d.1);
  }

  lemma TickKeepsValid(s: State, dt: real)
    requires Valid(s) && dt >= 0.0
    ensures Valid(Tick(s, dt))
  {
    var s1 := LayingTimer(s, dt);
    assert forall j :: 0 <= j < |s1.eggs| ==> s1.eggs[j].hatchTimer <= EggHatchTime;
    SurvivorsBounded(s1.eggs, dt, EggHatchTime);
  }

  /** Every input, with a non-negative frame duration, keeps the invariant. */
  lemma StepKeepsValid(s: State, e: Event)
    requires Valid(s)
    requires e.Frame? ==> e.dt >= 0.0
    ensures Valid(Step(s, e))
  {
    match e
    case GroundClick => PlaceQueenKeepsValid(s);
    case VoxelClick(x, y) => DigKeepsValid(s, x, y);
    case KeyPress(k) => KeyDownKeepsValid(s, k);
    case Frame(dt) => TickKeepsValid(s, dt);
  }

  lemma {:induction false} RunKeepsValid(s: State, es: seq<Event>)
    requires Valid(s) && WellTimed(es)
    ensures Valid(Run(s, es))
    decreases es
  {
    if es != [] {
      StepKeepsValid(s, es[0]);
      assert WellTimed(es[1..]) by {
        forall i | 0 <= i < |es[1..]| ensures es[1..][i].Frame? ==> es[1..][i].dt >= 0.0 {
          assert es[1..][i] == es[i + 1];
        }
      }
      RunKeepsValid(Step(s, es[0]), es[1..]);
    }
  }

  /** Whatever the player does, once the queen has a grid position she is
      inside the grid on a cell without soil. */
  lemma QueenStandsOnEmptyCell(es: seq<Event>)
    requires WellTimed(es)
    ensures var r := Run(Init(), es);
            Positioned(r) ==> InBounds(r.queenGridX, r.queenGridY)
                              && (r.queenGridX, r.queenGridY) !in r.soil
  {
    RunKeepsValid(Init(), es);
  }

  /** No input ever turns an empty cell back into soil. */
  lemma {:induction false} SoilNeverRefills(s: State, es: seq<Event>)
    ensures Run(s, es).soil <= s.soil
    decreases es
  {
    if es != [] {
      SoilNeverRefills(Step(s, es[0]), es[1..]);
    }
  }

  // ---------------------------------------------------------------------
  // Digging

  /** A dig changes at most the clicked cell, from soil to empty, and
      nothing but the grid; with a queen underground the cell is empty
      afterwards. */
  lemma DigOnlyClickedCell(s: State, x: int, y: int)
    ensures var r := Dig(s, x, y);
            && r == s.(soil := r.soil)
            && r.soil <= s.soil
            && s.soil - r.soil <= {(x, y)}
            && (s.queenPlaced && s.view == Underground ==> r.soil == s.soil - {(x, y)})
            && (!s.queenPlaced || s.view != Underground ==> r == s)
  {
  }

  lemma DigIdempotent(s: State, x: int, y: int)
    ensures Dig(Dig(s, x, y), x, y) == Dig(s, x, y)
  {
  }

  lemma DigOutsideGridIsNoop(s: State, x: int, y: int)
    requires Valid(s) && !InBounds(x, y)
    ensures Dig(s, x, y) == s
  {
  }

  /** The order of two digs does not matter. */
  lemma DigsCommute(s: State, x1: int, y1: int, x2: int, y2: int)
    ensures Dig(Dig(s, x1, y1), x2, y2) == Dig(Dig(s, x2, y2), x1, y1)
  {
  }

  // ---------------------------------------------------------------------
  // Queen movement

  /** A move leaves everything but the queen's position alone, succeeds
      exactly when the queen is positioned and the target is an empty
      in-bounds cell, and then puts her on the target. */
  lemma MoveOutcome(s: State, dx: int, dy: int)
    ensures var r := Move(s, dx, dy);
            var tx, ty := s.queenGridX + dx, s.queenGridY + dy;
            var allowed := s.queenPlaced && Positioned(s) && InBounds(tx, ty) && (tx, ty) !in s.soil;
            && r == s.(queenGridX := r.queenGridX, queenGridY := r.queenGridY)
            && (allowed ==> r.queenGridX == tx && r.queenGridY == ty)
            && (!allowed ==> r == s)
  {
  }

  /** A successful move is undone by the opposite move: the cell she left
      is still empty. */
  lemma MoveRoundTrip(s: State, dx: int, dy: int)
    requires Valid(s)
    requires Move(s, dx, dy) != s
    ensures Move(Move(s, dx, dy), -dx, -dy) == s
  {
  }

  lemma OppositeStep(k: Key)
    requires k in {ArrowUp, ArrowDown, ArrowLeft, ArrowRight}
    ensures KeyStep(Opposite(k)) == (-KeyStep(k).0, -KeyStep(k).1)
    ensures Opposite(Opposite(k)) == k
  {
  }

  /** An arrow key that moved the queen is undone by the opposite arrow. */
  lemma ArrowRoundTrip(s: State, k: Key)
    requires Valid(s)
    requires k in {ArrowUp, ArrowDown, ArrowLeft, ArrowRight}
    requires KeyDown(s, k) != s
    ensures KeyDown(KeyDown(s, k), Opposite(k)) == s
  {
    var d := KeyStep(k);
    OppositeStep(k);
    MoveRoundTrip(s, d.0, d.1);
  }

  /** Underground with the queen, ArrowUp takes her one row up exactly
      when that cell is inside the grid and empty; otherwise nothing moves. */
  lemma ArrowUpMovesUp(s: State)
    requires Valid(s) && s.view == Underground && s.queenPlaced
    ensures var x, y := s.queenGridX, s.queenGridY - 1;
            KeyDown(s, ArrowUp) ==
              if y >= 0 && (x, y) !in s.soil then s.(queenGridY := y) else s
  {
  }

  /** Underground with the queen, ArrowLeft takes her one column left
      exactly when that cell is inside the grid and empty. */
  lemma ArrowLeftMovesLeft(s: State)
    requires Valid(s) && s.view == Underground && s.queenPlaced
    ensures var x, y := s.queenGridX - 1, s.queenGridY;
            KeyDown(s, ArrowLeft) ==
              if x >= 0 && (x, y) !in s.soil then s.(queenGridX := x) else s
  {
  }

  /** Tab only switches the view: it asks for no step. */
  lemma TabOnlySwitches(s: State)
    ensures KeyDown(s, Tab) == SwitchView(s)
  {
  }

  // ---------------------------------------------------------------------
  // View switching

  /** The first descent with a placed queen carves the entry cell and puts
      her there, visible. */
  lemma FirstDescent(s: State)
    requires s.view == Surface && s.queenPlaced && !Positioned(s)
    ensures var r := SwitchView(s);
            && r.view == Underground && r.queenVisible
            && r.queenGridX == EntryX && r.queenGridY == EntryY
            && r.soil == s.soil - {(EntryX, EntryY)}
            && r.eggs == s.eggs && r.timeSinceLastEgg == s.timeSinceLastEgg
  {
  }

  /** Once she is positioned, switching views never moves her and never
      digs. */
  lemma LaterSwitchKeepsPosition(s: State)
    requires Positioned(s)
    ensures var r := SwitchView(s);
            r.queenGridX == s.queenGridX && r.queenGridY == s.queenGridY && r.soil == s.soil
  {
  }

  /** Switching twice restores the state, except on the first descent of a
      placed queen (which carves the entry and positions her). */
  lemma SwitchViewTwice(s: State)
    requires Valid(s)
    requires Positioned(s) || !s.queenPlaced
    ensures SwitchView(SwitchView(s)) == s
  {
  }

  /** A placed queen taken underground once is positioned and stays so. */
  lemma {:induction false} PositionedStaysPositioned(s: State, es: seq<Event>)
    requires Positioned(s)
    ensures Positioned(Run(s, es))
    decreases es
  {
    if es != [] {
      PositionedStaysPositioned(Step(s, es[0]), es[1..]);
    }
  }

  /** From the start, placing the queen and pressing Tab leaves the grid
      full except for the entry cell, with the queen on it. */
  lemma EntryScenario()
    ensures var r := Run(Init(), [GroundClick, KeyPress(Tab)]);
            && r.view == Underground
            && r.queenGridX == 10 && r.queenGridY == 0
            && (10, 0) !in r.soil
            && r.soil == FullGrid() - {(10, 0)}
  {
    var s1 := PlaceQueen(Init());
    assert Run(Init(), [GroundClick, KeyPress(Tab)]) == Run(s1, [KeyPress(Tab)]);
    assert Run(s1, [KeyPress(Tab)]) == KeyDown(s1, Tab);
    TabOnlySwitches(s1);
  }

  // ---------------------------------------------------------------------
  // Laying and hatching

  /** One frame changes only the eggs and the laying timer. Underground with
      a visible queen, the timer grows by dt and, on reaching the interval,
      exactly one egg with a full hatch timer joins the end of the brood and
      the timer restarts from zero; elsewhere the timer is untouched. Then
      every egg, the new one included, is aged by dt and the hatched ones
      leave. */
  lemma TickOutcome(s: State, dt: real)
    requires Valid(s)
    ensures var r := Tick(s, dt);
            var laying := s.view == Underground && s.queenPlaced && s.queenVisible;
            var lays := laying && s.timeSinceLastEgg + dt >= EggLayInterval;
            && r == s.(eggs := r.eggs, timeSinceLastEgg := r.timeSinceLastEgg)
            && (lays ==> r.timeSinceLastEgg == 0.0
                         && r.eggs == Survivors(s.eggs, dt) + Aged(Egg(EggHatchTime), dt))
            && (laying && !lays ==> r.timeSinceLastEgg == s.timeSinceLastEgg + dt
                                    && r.eggs == Survivors(s.eggs, dt))
            && (!laying ==> r.timeSinceLastEgg == s.timeSinceLastEgg
                            && r.eggs == Survivors(s.eggs, dt))
  {
    if s.view == Underground && s.queenPlaced && s.queenVisible
       && s.timeSinceLastEgg + dt >= EggLayInterval {
      SurvivorsAppend(s.eggs, [Egg(EggHatchTime)], dt);
      assert [Egg(EggHatchTime)][1..] == [];
    }
  }

  /** A frame lays at most one egg, however long it lasts. */
  lemma AtMostOneEggPerFrame(s: State, dt: real)
    requires Valid(s)
    ensures |Tick(s, dt).eggs| <= |s.eggs| + 1
  {
    TickOutcome(s, dt);
  }

  /** Underground with the queen and an empty brood, 2 s and then 3 s of
      frames give exactly one egg; it was laid with a full hatch timer in
      the second frame and has already been aged by that frame. */
  lemma FirstEggScenario(s: State)
    requires Valid(s)
    requires s.view == Underground && s.queenPlaced
    requires s.eggs == [] && s.timeSinceLastEgg == 0.0
    ensures var r := Tick(Tick(s, 2.0), 3.0);
            r.eggs == [Egg(EggHatchTime - 3.0)] && r.timeSinceLastEgg == 0.0
  {
    TickOutcome(s, 2.0);
    TickKeepsValid(s, 2.0);
    TickOutcome(Tick(s, 2.0), 3.0);
  }

  /** The run of frames with the given durations. */
  function Frames(dts: seq<real>): (es: seq<Event>)
    ensures |es| == |dts|
    ensures forall i :: 0 <= i < |dts| ==> es[i] == Frame(dts[i])
  {
    if dts == [] then [] else [Frame(dts[0])] + Frames(dts[1..])
  }

  /** A frame ages the brood it found and appends whatever it laid. */
  lemma FrameAppendsToBrood(s: State, dt: real) returns (laid: seq<Egg>)
    requires Valid(s)
    ensures Tick(s, dt).eggs == Survivors(s.eggs, dt) + laid
  {
    TickOutcome(s, dt);
    var lays := s.view == Underground && s.queenPlaced && s.queenVisible
                && s.timeSinceLastEgg + dt >= EggLayInterval;
    laid := if lays then Aged(Egg(EggHatchTime), dt) else [];
  }

  lemma RunFrames(s: State, dts: seq<real>)
    requires dts != []
    ensures Run(s, Frames(dts)) == Run(Tick(s, dts[0]), Frames(dts[1..]))
  {
    assert Frames(dts)[1..] == Frames(dts[1..]);
  }

  /** Over a run of frames, the eggs that were already there evolve as in
      AfterFrames, ahead of any egg laid meanwhile. */
  lemma {:induction false} OldEggsLeadTheBrood(s: State, dts: seq<real>) returns (later: seq<Egg>)
    requires Valid(s) && NonNegative(dts)
    ensures Run(s, Frames(dts)).eggs == AfterFrames(s.eggs, dts) + later
    decreases dts
  {
    if dts == [] {
      later := [];
    } else {
      var d, rest := dts[0], dts[1..];
      assert NonNegative(rest);
      var s1 := Tick(s, d);
      var laid := FrameAppendsToBrood(s, d);
      TickKeepsValid(s, d);
      RunFrames(s, dts);
      var later1 := OldEggsLeadTheBrood(s1, rest);
      later := AfterFrames(laid, rest) + later1;
      calc {
        Run(s, Frames(dts)).eggs;
        Run(s1, Frames(rest)).eggs;
        AfterFrames(Survivors(s.eggs, d) + laid, rest) + later1;
        { AfterFramesAppend(Survivors(s.eggs, d), laid, rest); }
        AfterFrames(Survivors(s.eggs, d), rest) + AfterFrames(laid, rest) + later1;
        AfterFrames(s.eggs, dts) + later;
      }
    }
  }

  /** An egg waiting with timer t is still in the brood, at its place and
      aged by the elapsed time, exactly while less than t seconds of frames
      have passed: no egg hatches early and none outstays its timer. */
  lemma EggHatchesOnTime(s: State, i: int, dts: seq<real>) returns (later: seq<Egg>)
    requires Valid(s) && NonNegative(dts)
    requires 0 <= i < |s.eggs|
    ensures var t := s.eggs[i].hatchTimer;
            Run(s, Frames(dts)).eggs ==
              AfterFrames(s.eggs[..i], dts)
              + (if Elapsed(dts) < t then [Egg(t - Elapsed(dts))] else [])
              + AfterFrames(s.eggs[i + 1..], dts)
              + later
  {
    later := OldEggsLeadTheBrood(s, dts);
    var before, egg, after := s.eggs[..i], [s.eggs[i]], s.eggs[i + 1..];
    assert s.eggs == before + egg + after;
    calc {
      AfterFrames(s.eggs, dts);
      AfterFrames(before + egg + after, dts);
      { AfterFramesAppend(before + egg, after, dts); }
      AfterFrames(before + egg, dts) + AfterFrames(after, dts);
      { AfterFramesAppend(before, egg, dts); }
      AfterFrames(before, dts) + AfterFrames(egg, dts) + AfterFrames(after, dts);
    }
    EggLifetime(s.eggs[i].hatchTimer, dts);
  }
}
