/** The grid's reaction to a tap on a cell. */
module GridView {
  import opened Uuid
  import opened PlaygroundModel
  import opened KarelWorldView

  /**
   * `changeWorld(row:column:)`: the first applicable rule acts, in the order
   * add beeper, remove beeper, add obstacle, remove obstacle, move Karel.
   * The tapped cell is one the grid draws, so it is a key of both maps.
   * A new beeper or obstacle gets the fresh id `id`.
   */
  method ChangeWorld(view: WorldView, row: int, column: int, id: Id)
    requires Cell(row, column) in view.playground.beeperCountDict
    requires Cell(row, column) in view.playground.obstaclePositions
    modifies view, view.playground
    ensures view.rotation == old(view.rotation) && view.Modes() == old(view.Modes())
    ensures view.showCrashAlert == old(view.showCrashAlert)
    ensures old(view.addBeeperToWorld) ==>
      view.playground.BeeperAdded(row, column, id) &&
      view.karelRow == old(view.karelRow) && view.karelColumn == old(view.karelColumn) &&
      view.Alerts() == old(view.Alerts())
    ensures !old(view.addBeeperToWorld) && old(view.removeBeeperFromWorld) ==>
      view.karelRow == old(view.karelRow) && view.karelColumn == old(view.karelColumn) &&
      view.showInvalidObstacleLocationAlert == old(view.showInvalidObstacleLocationAlert) &&
      if BeeperAtLocation(old(view.playground.beeperCountDict), row, column)
      then view.playground.BeeperRemoved(row, column) && view.showNoObjectAlert == old(view.showNoObjectAlert)
      else unchanged(view.playground) && view.showNoObjectAlert
    ensures !old(view.addBeeperToWorld) && !old(view.removeBeeperFromWorld) && old(view.addObstacleToWorld) ==>
      view.karelRow == old(view.karelRow) && view.karelColumn == old(view.karelColumn) &&
      view.showNoObjectAlert == old(view.showNoObjectAlert) &&
      if Cell(row, column) != Cell(old(view.karelRow), old(view.karelColumn))
      then view.playground.ObstacleAdded(row, column, id) &&
           view.showInvalidObstacleLocationAlert == old(view.showInvalidObstacleLocationAlert)
      else unchanged(view.playground) && view.showInvalidObstacleLocationAlert
    ensures !old(view.addBeeperToWorld) && !old(view.removeBeeperFromWorld) && !old(view.addObstacleToWorld) &&
            old(view.removeObstacleFromWorld) ==>
      view.karelRow == old(view.karelRow) && view.karelColumn == old(view.karelColumn) &&
      view.showInvalidObstacleLocationAlert == old(view.showInvalidObstacleLocationAlert) &&
      if ObstacleAtLocation(old(view.playground.obstaclePositions), row, column)
      then view.playground.ObstacleRemoved(row, column) && view.showNoObjectAlert == old(view.showNoObjectAlert)
      else unchanged(view.playground) && view.showNoObjectAlert
    ensures !old(view.addBeeperToWorld) && !old(view.removeBeeperFromWorld) && !old(view.addObstacleToWorld) &&
            !old(view.removeObstacleFromWorld) ==>
      unchanged(view.playground) && view.showNoObjectAlert == old(view.showNoObjectAlert) &&
      if !ObstacleAtLocation(view.playground.obstaclePositions, row, column)
      then view.karelRow == row && view.karelColumn == column &&
           view.showInvalidObstacleLocationAlert == old(view.showInvalidObstacleLocationAlert)
      else view.karelRow == old(view.karelRow) && view.karelColumn == old(view.karelColumn) &&
           view.showInvalidObstacleLocationAlert
    ensures old(view.KarelClear()) ==> view.KarelClear()
    ensures old(view.playground.Consistent()) ==> view.playground.Consistent()
    ensures old(view.playground.Covers()) ==> view.playground.Covers()
    ensures old(view.KarelInGrid()) && old(view.playground.Covers()) ==> view.KarelInGrid()
    ensures old(view.playground.CountsNonNegative()) ==> view.playground.CountsNonNegative()
    ensures !old(view.addBeeperToWorld) && old(view.removeBeeperFromWorld) &&
            old(view.playground.Consistent()) && old(view.playground.CountsNonNegative()) &&
            BeeperAtLocation(old(view.playground.beeperCountDict), row, column) ==>
            |view.playground.beepers| == |old(view.playground.beepers)| - 1
  {
    var playground := view.playground;
    if view.addBeeperToWorld {
      playground.AddBeeper(row, column, id);
    } else if view.removeBeeperFromWorld {
      if BeeperAtLocation(playground.beeperCountDict, row, column) {
        if playground.Consistent() && playground.CountsNonNegative() {
          BeeperLookupFindsEntity(playground.beeperCountDict, playground.beepers, Cell(row, column));
        }
        RemoveFirstKeepsOthers(playground.beepers, Cell(row, column));
        playground.RemoveBeeper(row, column);
      } else {
        view.showNoObjectAlert := true;
      }
    } else if view.addObstacleToWorld && (view.karelRow != row || view.karelColumn != column) {
      playground.AddObstacle(row, column, id);
    } else if view.addObstacleToWorld && view.karelRow == row && view.karelColumn == column {
      view.showInvalidObstacleLocationAlert := true;
    } else if view.removeObstacleFromWorld {
      if ObstacleAtLocation(playground.obstaclePositions, row, column) {
        playground.RemoveObstacles(row, column);
      } else {
        view.showNoObjectAlert := true;
      }
    } else if !ObstacleAtLocation(playground.obstaclePositions, row, column) {
      view.karelRow := row;
      view.karelColumn := column;
    } else {
      view.showInvalidObstacleLocationAlert := true;
    }
  }
}
