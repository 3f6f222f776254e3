/**
 * Karel's own state, tracked by the world view rather than by the model:
 * position, accumulated rotation in degrees, the four world-builder mode
 * flags and the alert flags. Also the two lookups that query the model's maps.
 */
module KarelWorldView {
  import opened Uuid
  import opened PlaygroundModel

  datatype Heading = North | East | South | West

  /**
   * Swift's `a % 360` on `Int`: the remainder takes the sign of the dividend
   * (Dafny's own `%` is Euclidean, never negative).
   */
  function Rem360(a: int): (r: int)
    ensures -360 < r < 360
    ensures a >= 0 ==> r >= 0
    ensures a <= 0 ==> r <= 0
    ensures (a - r) % 360 == 0
  {
    if a >= 0 then a % 360 else -((-a) % 360)
  }

  function Abs(x: int): int {
    if x < 0 then -x else x
  }

  // The four heading tests of `moveKarel`, on `Int(rotation) % 360`.
  predicate FacesEast(rotation: int) {
    Abs(Rem360(rotation)) == 0
  }

  predicate FacesWest(rotation: int) {
    Rem360(rotation) == 180 || Rem360(rotation) == -180
  }

  predicate FacesSouth(rotation: int) {
    Rem360(rotation) == 90 || Rem360(rotation) == -270
  }

  predicate FacesNorth(rotation: int) {
    Rem360(rotation) == 270 || Rem360(rotation) == -90
  }

  /** Reference meaning of a rotation: quarter turns clockwise from east. */
  function HeadingOf(rotation: int): Heading {
    match (rotation / 90) % 4
    case 0 => East
    case 1 => South
    case 2 => West
    case _ => North
  }

  function LeftOf(h: Heading): Heading {
    match h
    case East => North
    case North => West
    case West => South
    case South => East
  }

  function RightOf(h: Heading): Heading {
    match h
    case East => South
    case South => West
    case West => North
    case North => East
  }

  function Reverse(h: Heading): Heading {
    match h
    case East => West
    case West => East
    case North => South
    case South => North
  }

  /**
   * Every multiple of 90 passes exactly one of the four heading tests of
   * `moveKarel`, the one that names its reference heading.
   */
  lemma HeadingTests(rotation: int)
    requires rotation % 90 == 0
    ensures FacesEast(rotation) <==> HeadingOf(rotation) == East
    ensures FacesWest(rotation) <==> HeadingOf(rotation) == West
    ensures FacesSouth(rotation) <==> HeadingOf(rotation) == South
    ensures FacesNorth(rotation) <==> HeadingOf(rotation) == North
  {
    // rotation == 360 * k + 90 * m, with m the reference quarter count
    var q := rotation / 90;
    var k, m := q / 4, q % 4;
    assert rotation == 360 * k + 90 * m;
    if rotation >= 0 {
      assert Rem360(rotation) == 90 * m;
    } else if m == 0 {
      assert -rotation == 360 * -k;
      assert Rem360(rotation) == 0;
    } else {
      assert -rotation == 360 * (-k - 1) + (360 - 90 * m);
      assert Rem360(rotation) == 90 * m - 360;
    }
  }

  /** turn_left (-90) turns the heading left. */
  lemma TurnLeftHeading(rotation: int)
    requires rotation % 90 == 0
    ensures (rotation - 90) % 90 == 0
    ensures HeadingOf(rotation - 90) == LeftOf(HeadingOf(rotation))
  {
    assert (rotation - 90) / 90 == rotation / 90 - 1;
  }

  /** turn_right (+90) turns the heading right. */
  lemma TurnRightHeading(rotation: int)
    requires rotation % 90 == 0
    ensures (rotation + 90) % 90 == 0
    ensures HeadingOf(rotation + 90) == RightOf(HeadingOf(rotation))
  {
    assert (rotation + 90) / 90 == rotation / 90 + 1;
  }

  /** turn_around (+180) reverses the heading. */
  lemma TurnAroundHeading(rotation: int)
    requires rotation % 90 == 0
    ensures (rotation + 180) % 90 == 0
    ensures HeadingOf(rotation + 180) == Reverse(HeadingOf(rotation))
  {
    assert (rotation + 180) / 90 == rotation / 90 + 2;
  }

  /** `obstacleAtLocation`: false for a cell that is not a key. */
  function ObstacleAtLocation(obstaclePositions: map<Cell, int>, row: int, col: int): (r: bool)
    ensures r <==> Cell(row, col) in obstaclePositions && obstaclePositions[Cell(row, col)] != 0
  {
    var cell := Cell(row, col);
    if cell in obstaclePositions then obstaclePositions[cell] != 0 else false
  }

  /** `beeperAtLocation`: false for a cell that is not a key. */
  function BeeperAtLocation(beeperCountDict: map<Cell, int>, row: int, col: int): (r: bool)
    ensures r <==> Cell(row, col) in beeperCountDict && beeperCountDict[Cell(row, col)] != 0
  {
    var cell := Cell(row, col);
    if cell in beeperCountDict then beeperCountDict[cell] != 0 else false
  }

  /**
   * When presence 1 always means an obstacle entity on the cell, an obstacle
   * reported by the lookup is one that `removeObstacles` finds and removes.
   */
  lemma ObstacleLookupFindsEntity(obstaclePositions: map<Cell, int>, obstacles: seq<Obstacle>, c: Cell)
    requires forall d :: d in obstaclePositions && obstaclePositions[d] != 0 ==> CountAt(obstacles, d) > 0
    requires ObstacleAtLocation(obstaclePositions, c.row, c.col)
    ensures FirstIndexAt(obstacles, c) < |obstacles|
  {
    FoundIffPresent(obstacles, c);
  }

  /**
   * When counts are non-negative and never exceed the beepers on a cell, a
   * beeper reported by the lookup is one that `removeBeeper` finds and removes.
   */
  lemma BeeperLookupFindsEntity(beeperCountDict: map<Cell, int>, beepers: seq<Beeper>, c: Cell)
    requires forall d :: d in beeperCountDict ==> 0 <= beeperCountDict[d] <= CountAt(beepers, d)
    requires BeeperAtLocation(beeperCountDict, c.row, c.col)
    ensures FirstIndexAt(beepers, c) < |beepers|
  {
    FoundIffPresent(beepers, c);
  }

  /** The cell one step ahead. */
  function Ahead(h: Heading, c: Cell): Cell {
    match h
    case East => Cell(c.row, c.col + 1)
    case West => Cell(c.row, c.col - 1)
    case South => Cell(c.row + 1, c.col)
    case North => Cell(c.row - 1, c.col)
  }

  /** The guard `moveKarel` checks for its heading: only the coordinate that changes is bounds-checked. */
  predicate MoveAllowed(h: Heading, row: int, col: int, numRows: int, numCols: int, obstaclePositions: map<Cell, int>)
    ensures MoveAllowed(h, row, col, numRows, numCols, obstaclePositions) ==>
      var t := Ahead(h, Cell(row, col));
      !ObstacleAtLocation(obstaclePositions, t.row, t.col) &&
      (h == East ==> t.col < numCols) && (h == West ==> 0 <= t.col) &&
      (h == South ==> t.row < numRows) && (h == North ==> 0 <= t.row)
  {
    match h
    case East => col < numCols - 1 && !ObstacleAtLocation(obstaclePositions, row, col + 1)
    case West => col > 0 && !ObstacleAtLocation(obstaclePositions, row, col - 1)
    case South => row < numRows - 1 && !ObstacleAtLocation(obstaclePositions, row + 1, col)
    case North => row > 0 && !ObstacleAtLocation(obstaclePositions, row - 1, col)
  }

  /**
   * From a cell of the grid, a move succeeds exactly when the cell ahead is
   * in the grid and holds no obstacle; a successful move therefore stays in the grid.
   */
  lemma MoveRule(h: Heading, row: int, col: int, numRows: int, numCols: int, obstaclePositions: map<Cell, int>)
    requires InGrid(Cell(row, col), numRows, numCols)
    ensures var t := Ahead(h, Cell(row, col));
      MoveAllowed(h, row, col, numRows, numCols, obstaclePositions) <==>
      InGrid(t, numRows, numCols) && !ObstacleAtLocation(obstaclePositions, t.row, t.col)
  {
  }

  class WorldView {
    const playground: Playground
    var rotation: int
    var karelRow: int
    var karelColumn: int
    var showCrashAlert: bool
    var addBeeperToWorld: bool
    var removeBeeperFromWorld: bool
    var addObstacleToWorld: bool
    var removeObstacleFromWorld: bool
    var showInvalidObstacleLocationAlert: bool
    var showNoObjectAlert: bool

    predicate AtMostOneMode()
      reads this
    {
      (if addBeeperToWorld then 1 else 0) + (if removeBeeperFromWorld then 1 else 0) +
      (if addObstacleToWorld then 1 else 0) + (if removeObstacleFromWorld then 1 else 0) <= 1
    }

    /** Rotation only ever moves in quarter turns, and at most one world-builder mode is on. */
    ghost predicate Valid()
      reads this
    {
      rotation % 90 == 0 && AtMostOneMode()
    }

    /** Karel does not stand on an obstacle. */
    ghost predicate KarelClear()
      reads this, playground
    {
      !ObstacleAtLocation(playground.obstaclePositions, karelRow, karelColumn)
    }

    ghost predicate KarelInGrid()
      reads this, playground
    {
      InGrid(Cell(karelRow, karelColumn), playground.numRows, playground.numCols)
    }

    /** The initial `@State` values. */
    constructor (playground: Playground)
      ensures this.playground == playground
      ensures rotation == 0 && karelRow == 0 && karelColumn == 0
      ensures !addBeeperToWorld && !removeBeeperFromWorld && !addObstacleToWorld && !removeObstacleFromWorld
      ensures !showCrashAlert && !showInvalidObstacleLocationAlert && !showNoObjectAlert
      ensures Valid()
    {
      this.playground := playground;
      rotation := 0;
      karelRow := 0;
      karelColumn := 0;
      showCrashAlert := false;
      addBeeperToWorld := false;
      removeBeeperFromWorld := false;
      addObstacleToWorld := false;
      removeObstacleFromWorld := false;
      showInvalidObstacleLocationAlert := false;
      showNoObjectAlert := false;
    }

    /** `onAppear`: Karel goes to the bottom row; the column keeps its initial 0. */
    method OnAppear()
      modifies this
      ensures karelRow == playground.numRows - 1 && karelColumn == old(karelColumn)
      ensures rotation == old(rotation) && Modes() == old(Modes()) && Alerts() == old(Alerts())
      ensures old(karelColumn) == 0 && 1 <= playground.numRows && 1 <= playground.numCols ==> KarelInGrid()
    {
      karelRow := playground.numRows - 1;
    }

    ghost function Modes(): (bool, bool, bool, bool)
      reads this
    {
      (addBeeperToWorld, removeBeeperFromWorld, addObstacleToWorld, removeObstacleFromWorld)
    }

    ghost function Alerts(): (bool, bool, bool)
      reads this
    {
      (showCrashAlert, showInvalidObstacleLocationAlert, showNoObjectAlert)
    }

    method TurnLeft()
      modifies this
      ensures rotation == old(rotation) - 90
      ensures karelRow == old(karelRow) && karelColumn == old(karelColumn)
      ensures Modes() == old(Modes()) && Alerts() == old(Alerts())
      ensures old(Valid()) ==> Valid() && HeadingOf(rotation) == LeftOf(HeadingOf(old(rotation)))
    {
      if rotation % 90 == 0 {
        TurnLeftHeading(rotation);
      }
      rotation := rotation - 90;
    }

    method TurnRight()
      modifies this
      ensures rotation == old(rotation) + 90
      ensures karelRow == old(karelRow) && karelColumn == old(karelColumn)
      ensures Modes() == old(Modes()) && Alerts() == old(Alerts())
      ensures old(Valid()) ==> Valid() && HeadingOf(rotation) == RightOf(HeadingOf(old(rotation)))
    {
      if rotation % 90 == 0 {
        TurnRightHeading(rotation);
      }
      rotation := rotation + 90;
    }

    method TurnAround()
      modifies this
      ensures rotation == old(rotation) + 180
      ensures karelRow == old(karelRow) && karelColumn == old(karelColumn)
      ensures Modes() == old(Modes()) && Alerts() == old(Alerts())
      ensures old(Valid()) ==> Valid() && HeadingOf(rotation) == Reverse(HeadingOf(old(rotation)))
    {
      if rotation % 90 == 0 {
        TurnAroundHeading(rotation);
      }
      rotation := rotation + 180;
    }

    /**
     * One step in the current heading, or a crash (the alert flag is set and
     * nothing else changes) when the heading's guard fails.
     */
    method MoveKarel()
      modifies this
      ensures rotation == old(rotation) && Modes() == old(Modes())
      ensures showInvalidObstacleLocationAlert == old(showInvalidObstacleLocationAlert)
      ensures showNoObjectAlert == old(showNoObjectAlert)
      ensures old(rotation) % 90 == 0 ==>
        var h := HeadingOf(old(rotation));
        if MoveAllowed(h, old(karelRow), old(karelColumn), playground.numRows, playground.numCols, playground.obstaclePositions)
        then Cell(karelRow, karelColumn) == Ahead(h, Cell(old(karelRow), old(karelColumn))) &&
             showCrashAlert == old(showCrashAlert)
        else karelRow == old(karelRow) && karelColumn == old(karelColumn) && showCrashAlert
      ensures old(rotation) % 90 != 0 ==> karelRow == old(karelRow) && karelColumn == old(karelColumn) && showCrashAlert
      ensures old(KarelClear()) ==> KarelClear()
      ensures old(KarelInGrid()) ==> KarelInGrid()
    {
      if rotation % 90 == 0 {
        HeadingTests(rotation);
      }
      var positions := playground.obstaclePositions;
      if FacesEast(rotation) && karelColumn < playground.numCols - 1
         && !ObstacleAtLocation(positions, karelRow, karelColumn + 1) {
        karelColumn := karelColumn + 1;
      } else if FacesWest(rotation) && karelColumn > 0
         && !ObstacleAtLocation(positions, karelRow, karelColumn - 1) {
        karelColumn := karelColumn - 1;
      } else if FacesSouth(rotation) && karelRow < playground.numRows - 1
         && !ObstacleAtLocation(positions, karelRow + 1, karelColumn) {
        karelRow := karelRow + 1;
      } else if FacesNorth(rotation) && karelRow > 0
         && !ObstacleAtLocation(positions, karelRow - 1, karelColumn) {
        karelRow := karelRow - 1;
      } else {
        showCrashAlert := true;
      }
    }

    /** put_beeper: `addBeeper` at Karel's cell. */
    method PutBeeper(id: Id)
      requires Cell(karelRow, karelColumn) in playground.beeperCountDict
      requires CountAt(playground.obstacles, Cell(karelRow, karelColumn)) > 0 ==>
               Cell(karelRow, karelColumn) in playground.obstaclePositions
      modifies playground
      ensures playground.BeeperAdded(karelRow, karelColumn, id)
      ensures old(playground.Consistent()) ==> playground.Consistent() && KarelClear()
      ensures old(playground.Covers()) ==> playground.Covers()
    {
      playground.AddBeeper(karelRow, karelColumn, id);
    }

    /** pick_beeper: `removeBeeper` at Karel's cell when its count is non-zero, otherwise the no-object alert. */
    method PickBeeper()
      modifies this, playground
      ensures karelRow == old(karelRow) && karelColumn == old(karelColumn) && rotation == old(rotation)
      ensures Modes() == old(Modes())
      ensures showCrashAlert == old(showCrashAlert)
      ensures showInvalidObstacleLocationAlert == old(showInvalidObstacleLocationAlert)
      ensures if BeeperAtLocation(old(playground.beeperCountDict), karelRow, karelColumn)
              then playground.BeeperRemoved(karelRow, karelColumn) && showNoObjectAlert == old(showNoObjectAlert)
              else unchanged(playground) && showNoObjectAlert
      ensures old(playground.Consistent()) ==> playground.Consistent()
      ensures old(playground.CountsNonNegative()) ==> playground.CountsNonNegative()
      ensures old(playground.Covers()) ==> playground.Covers()
      ensures old(playground.Consistent()) && old(playground.CountsNonNegative()) &&
              BeeperAtLocation(old(playground.beeperCountDict), karelRow, karelColumn) ==>
              |playground.beepers| == |old(playground.beepers)| - 1
    {
      if BeeperAtLocation(playground.beeperCountDict, karelRow, karelColumn) {
        if playground.Consistent() && playground.CountsNonNegative() {
          BeeperLookupFindsEntity(playground.beeperCountDict, playground.beepers, Cell(karelRow, karelColumn));
        }
        RemoveFirstKeepsOthers(playground.beepers, Cell(karelRow, karelColumn));
        playground.RemoveBeeper(karelRow, karelColumn);
      } else {
        showNoObjectAlert := true;
      }
    }

    /** The trash button: all beepers, then all obstacles, are removed. */
    method Trash()
      requires 0 <= playground.numRows && 0 <= playground.numCols
      modifies playground
      ensures playground.beepers == [] && playground.obstacles == []
      ensures playground.numRows == old(playground.numRows) && playground.numCols == old(playground.numCols)
      ensures playground.Covers() && playground.AllZero() && playground.Consistent()
      ensures KarelClear()
    {
      playground.RemoveAllBeepers();
      playground.RemoveAllObstacles();
    }

    method ToggleAddBeeper()
      modifies this
      ensures addBeeperToWorld == !old(addBeeperToWorld)
      ensures !removeBeeperFromWorld && !addObstacleToWorld && !removeObstacleFromWorld
      ensures rotation == old(rotation) && karelRow == old(karelRow) && karelColumn == old(karelColumn)
      ensures Alerts() == old(Alerts())
      ensures AtMostOneMode() && (old(Valid()) ==> Valid())
    {
      addBeeperToWorld := !addBeeperToWorld;
      removeBeeperFromWorld := false;
      addObstacleToWorld := false;
      removeObstacleFromWorld := false;
    }

    method ToggleRemoveBeeper()
      modifies this
      ensures removeBeeperFromWorld == !old(removeBeeperFromWorld)
      ensures !addBeeperToWorld && !addObstacleToWorld && !removeObstacleFromWorld
      ensures rotation == old(rotation) && karelRow == old(karelRow) && karelColumn == old(karelColumn)
      ensures Alerts() == old(Alerts())
      ensures AtMostOneMode() && (old(Valid()) ==> Valid())
    {
      removeBeeperFromWorld := !removeBeeperFromWorld;
      addBeeperToWorld := false;
      addObstacleToWorld := false;
      removeObstacleFromWorld := false;
    }

    method ToggleAddObstacle()
      modifies this
      ensures addObstacleToWorld == !old(addObstacleToWorld)
      ensures !addBeeperToWorld && !removeBeeperFromWorld && !removeObstacleFromWorld
      ensures rotation == old(rotation) && karelRow == old(karelRow) && karelColumn == old(karelColumn)
      ensures Alerts() == old(Alerts())
      ensures AtMostOneMode() && (old(Valid()) ==> Valid())
    {
      addObstacleToWorld := !addObstacleToWorld;
      removeBeeperFromWorld := false;
      addBeeperToWorld := false;
      removeObstacleFromWorld := false;
    }

    method ToggleRemoveObstacle()
      modifies this
      ensures removeObstacleFromWorld == !old(removeObstacleFromWorld)
      ensures !addBeeperToWorld && !removeBeeperFromWorld && !addObstacleToWorld
      ensures rotation == old(rotation) && karelRow == old(karelRow) && karelColumn == old(karelColumn)
      ensures Alerts() == old(Alerts())
      ensures AtMostOneMode() && (old(Valid()) ==> Valid())
    {
      removeObstacleFromWorld := !removeObstacleFromWorld;
      removeBeeperFromWorld := false;
      addObstacleToWorld := false;
      addBeeperToWorld := false;
    }
  }
}
