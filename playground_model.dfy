/**
 * The world of one Karel playground: its dimensions, the beeper and obstacle
 * entities placed on it, and two maps derived from them, the number of
 * beepers per cell and whether a cell holds an obstacle (0 or 1).
 */
module PlaygroundModel {
  import opened Uuid

  /** A grid coordinate, used as a dictionary key. */
  datatype Cell = Cell(row: int, col: int)

  /** A placed entity. Beepers and obstacles carry exactly the same fields. */
  datatype Token = Token(id: Id, row: int, column: int)
  type Beeper = Token
  type Obstacle = Token

  predicate At(t: Token, c: Cell) {
    t.row == c.row && t.column == c.col
  }

  predicate InGrid(c: Cell, rows: int, cols: int) {
    0 <= c.row < rows && 0 <= c.col < cols
  }

  /** How many entities of `s` stand on `c`. */
  function CountAt(s: seq<Token>, c: Cell): nat {
    if s == [] then 0 else (if At(s[0], c) then 1 else 0) + CountAt(s[1..], c)
  }

  /** Index of the first entity of `s` on `c`, or `|s|` when there is none. */
  function FirstIndexAt(s: seq<Token>, c: Cell): (i: nat)
    ensures i <= |s|
    ensures i < |s| ==> At(s[i], c)
    ensures forall j :: 0 <= j < i ==> !At(s[j], c)
  {
    if s == [] then 0 else if At(s[0], c) then 0 else 1 + FirstIndexAt(s[1..], c)
  }

  /** `s` without its first entity on `c` (unchanged when there is none). */
  function RemoveFirstAt(s: seq<Token>, c: Cell): (r: seq<Token>)
    ensures CountAt(s, c) == 0 ==> r == s
    ensures CountAt(s, c) > 0 ==> |r| == |s| - 1
  {
    FoundIffPresent(s, c);
    var i := FirstIndexAt(s, c);
    if i < |s| then s[..i] + s[i + 1..] else s
  }

  lemma {:induction false} CountConcat(s: seq<Token>, t: seq<Token>, c: Cell)
    ensures CountAt(s + t, c) == CountAt(s, c) + CountAt(t, c)
  {
    if s == [] {
      assert s + t == t;
    } else {
      assert (s + t)[1..] == s[1..] + t;
      CountConcat(s[1..], t, c);
    }
  }

  /** The linear search finds an entity exactly when the cell holds one. */
  lemma {:induction false} FoundIffPresent(s: seq<Token>, c: Cell)
    ensures FirstIndexAt(s, c) < |s| <==> CountAt(s, c) > 0
  {
    if s != [] {
      FoundIffPresent(s[1..], c);
    }
  }

  /** Removing the first entity on `c` lowers the count on `c` by one, if it was positive, and no other count. */
  lemma RemoveFirstCounts(s: seq<Token>, c: Cell, d: Cell)
    ensures CountAt(RemoveFirstAt(s, c), d) ==
            if d == c && CountAt(s, c) > 0 then CountAt(s, d) - 1 else CountAt(s, d)
  {
    FoundIffPresent(s, c);
    var i := FirstIndexAt(s, c);
    if i < |s| {
      assert s == s[..i] + [s[i]] + s[i + 1..];
      CountConcat(s[..i] + [s[i]], s[i + 1..], d);
      CountConcat(s[..i], [s[i]], d);
      CountConcat(s[..i], s[i + 1..], d);
      assert CountAt([s[i]], d) == if At(s[i], d) then 1 else 0;
    }
  }

  /** Exactly the first entity on `c` goes; the others keep their relative order. */
  lemma RemoveFirstKeepsOthers(s: seq<Token>, c: Cell)
    ensures var r, i := RemoveFirstAt(s, c), FirstIndexAt(s, c);
      (i == |s| ==> r == s) &&
      (i < |s| ==> |r| == |s| - 1 && multiset(r) + multiset{s[i]} == multiset(s) &&
                   (forall j :: 0 <= j < i ==> r[j] == s[j]) &&
                   (forall j :: i <= j < |r| ==> r[j] == s[j + 1]))
  {
    var i := FirstIndexAt(s, c);
    if i < |s| {
      assert s == s[..i] + [s[i]] + s[i + 1..];
    }
  }

  /** The nested `for row` / `for col` loops: every cell of rows x cols mapped to 0. */
  method ZeroGrid(rows: int, cols: int) returns (m: map<Cell, int>)
    requires 0 <= rows && 0 <= cols
    ensures forall c :: c in m <==> InGrid(c, rows, cols)
    ensures forall c :: c in m ==> m[c] == 0
  {
    m := map[];
    var row := 0;
    while row < rows
      invariant 0 <= row <= rows
      invariant forall c :: c in m <==> InGrid(c, row, cols)
      invariant forall c :: c in m ==> m[c] == 0
    {
      var col := 0;
      while col < cols
        invariant 0 <= col <= cols
        invariant forall c :: c in m <==> InGrid(c, row, cols) || (c.row == row && 0 <= c.col < col)
        invariant forall c :: c in m ==> m[c] == 0
      {
        m := m[Cell(row, col) := 0];
        col := col + 1;
      }
      row := row + 1;
    }
  }

  class Playground {
    var beepers: seq<Beeper>
    var numRows: int
    var numCols: int
    var beeperCountDict: map<Cell, int>
    var obstaclePositions: map<Cell, int>
    var obstacles: seq<Obstacle>

    /** Both maps have exactly the cells of the grid as keys (rendering force-unwraps them). */
    ghost predicate Covers()
      reads this
    {
      (forall c :: c in beeperCountDict <==> InGrid(c, numRows, numCols)) &&
      (forall c :: c in obstaclePositions <==> InGrid(c, numRows, numCols))
    }

    /**
     * What every operation keeps between the maps and the entity lists:
     * a cell's count never exceeds the beepers on it, presence is 0 or 1,
     * and presence 1 means some obstacle entity stands on the cell.
     */
    ghost predicate Consistent()
      reads this
    {
      (forall c :: c in beeperCountDict ==> beeperCountDict[c] <= CountAt(beepers, c)) &&
      (forall c :: c in obstaclePositions ==> obstaclePositions[c] == 0 || obstaclePositions[c] == 1) &&
      (forall c :: c in obstaclePositions && obstaclePositions[c] != 0 ==> CountAt(obstacles, c) > 0)
    }

    /**
     * No count is negative. Not kept by `RemoveBeeper` on its own (a count
     * zeroed by `AddObstacle` while beepers remain drops to -1); kept by the
     * callers, which remove a beeper only from a cell whose count is non-zero.
     */
    ghost predicate CountsNonNegative()
      reads this
    {
      forall c :: c in beeperCountDict ==> beeperCountDict[c] >= 0
    }

    /** Every count is zero and every cell is free of obstacles. */
    ghost predicate AllZero()
      reads this
    {
      (forall c :: c in beeperCountDict ==> beeperCountDict[c] == 0) &&
      (forall c :: c in obstaclePositions ==> obstaclePositions[c] == 0)
    }

    /** The effect of `removeObstacles(row:column:)`. */
    twostate predicate ObstacleRemoved(row: int, column: int)
      reads this
    {
      var cell := Cell(row, column);
      obstacles == RemoveFirstAt(old(obstacles), cell) &&
      obstaclePositions == (if CountAt(old(obstacles), cell) > 0
                            then old(obstaclePositions)[cell := 0] else old(obstaclePositions)) &&
      beepers == old(beepers) && beeperCountDict == old(beeperCountDict) &&
      numRows == old(numRows) && numCols == old(numCols)
    }

    /** The effect of `addBeeper(row:column:)`, whose new beeper gets the id `id`. */
    twostate predicate BeeperAdded(row: int, column: int, id: Id)
      reads this
    {
      var cell := Cell(row, column);
      cell in old(beeperCountDict) &&
      beepers == old(beepers) + [Token(id, row, column)] &&
      beeperCountDict == old(beeperCountDict)[cell := old(beeperCountDict)[cell] + 1] &&
      obstacles == RemoveFirstAt(old(obstacles), cell) &&
      obstaclePositions == (if CountAt(old(obstacles), cell) > 0
                            then old(obstaclePositions)[cell := 0] else old(obstaclePositions)) &&
      numRows == old(numRows) && numCols == old(numCols)
    }

    /** The effect of `removeBeeper(row:column:)`. */
    twostate predicate BeeperRemoved(row: int, column: int)
      reads this
    {
      var cell := Cell(row, column);
      beepers == RemoveFirstAt(old(beepers), cell) &&
      (CountAt(old(beepers), cell) > 0 ==>
         cell in old(beeperCountDict) &&
         beeperCountDict == old(beeperCountDict)[cell := old(beeperCountDict)[cell] - 1]) &&
      (CountAt(old(beepers), cell) == 0 ==> beeperCountDict == old(beeperCountDict)) &&
      obstacles == old(obstacles) && obstaclePositions == old(obstaclePositions) &&
      numRows == old(numRows) && numCols == old(numCols)
    }

    /** The effect of `addObstacle(row:column:)`, whose new obstacle gets the id `id`. */
    twostate predicate ObstacleAdded(row: int, column: int, id: Id)
      reads this
    {
      var cell := Cell(row, column);
      cell in old(obstaclePositions) &&
      beeperCountDict == (if cell in old(beeperCountDict)
                          then old(beeperCountDict)[cell := 0] else old(beeperCountDict)) &&
      obstacles == old(obstacles) + [Token(id, row, column)] &&
      obstaclePositions == old(obstaclePositions)[cell := 1] &&
      beepers == old(beepers) && numRows == old(numRows) && numCols == old(numCols)
    }

    /** `init(numRows:numCols:beepers:obstacles:)`: the lists are kept, both maps start at zero over the grid. */
    constructor (numRows: int, numCols: int, beepers: seq<Beeper>, obstacles: seq<Obstacle>)
      requires 0 <= numRows && 0 <= numCols
      ensures this.numRows == numRows && this.numCols == numCols
      ensures this.beepers == beepers && this.obstacles == obstacles
      ensures Covers() && AllZero() && Consistent()
    {
      this.obstacles := obstacles;
      this.numRows := numRows;
      this.numCols := numCols;
      this.beepers := beepers;
      var counts := ZeroGrid(numRows, numCols);
      this.beeperCountDict := counts;
      var positions := ZeroGrid(numRows, numCols);
      this.obstaclePositions := positions;
    }

    /** Removes the first obstacle on (row, column), if any, and clears that cell's presence. */
    method RemoveObstacles(row: int, column: int)
      requires CountAt(obstacles, Cell(row, column)) > 0 ==> Cell(row, column) in obstaclePositions
      modifies this
      ensures ObstacleRemoved(row, column)
      ensures old(Consistent()) ==> Consistent()
      ensures old(Covers()) ==> Covers()
      ensures old(Consistent()) ==> Cell(row, column) in obstaclePositions ==> obstaclePositions[Cell(row, column)] == 0
    {
      var cell := Cell(row, column);
      forall d | true
        ensures CountAt(RemoveFirstAt(obstacles, cell), d) ==
                if d == cell && CountAt(obstacles, cell) > 0 then CountAt(obstacles, d) - 1 else CountAt(obstacles, d)
      {
        RemoveFirstCounts(obstacles, cell, d);
      }
      FoundIffPresent(obstacles, cell);
      var index := 0;
      while index < |obstacles|
        invariant 0 <= index <= |obstacles|
        invariant obstacles == old(obstacles) && obstaclePositions == old(obstaclePositions)
        invariant beepers == old(beepers) && beeperCountDict == old(beeperCountDict)
        invariant numRows == old(numRows) && numCols == old(numCols)
        invariant forall j :: 0 <= j < index ==> !At(obstacles[j], cell)
      {
        if obstacles[index].row == row && obstacles[index].column == column {
          obstacles := obstacles[..index] + obstacles[index + 1..];
          obstaclePositions := obstaclePositions[cell := 0];
          return;
        }
        index := index + 1;
      }
    }

    /** Evicts an obstacle from the cell, then stacks one more beeper on it. */
    method AddBeeper(row: int, column: int, id: Id)
      requires Cell(row, column) in beeperCountDict
      requires CountAt(obstacles, Cell(row, column)) > 0 ==> Cell(row, column) in obstaclePositions
      modifies this
      ensures BeeperAdded(row, column, id)
      ensures old(Consistent()) ==> Consistent()
      ensures old(Covers()) ==> Covers()
      ensures old(Consistent()) ==> Cell(row, column) in obstaclePositions ==> obstaclePositions[Cell(row, column)] == 0
    {
      RemoveObstacles(row, column);
      var newBeeper := Token(id, row, column);
      forall d | true
        ensures CountAt(beepers + [newBeeper], d) == CountAt(beepers, d) + if At(newBeeper, d) then 1 else 0
      {
        CountConcat(beepers, [newBeeper], d);
        assert CountAt([newBeeper], d) == if At(newBeeper, d) then 1 else 0;
      }
      beepers := beepers + [newBeeper];
      var cell := Cell(row, column);
      beeperCountDict := beeperCountDict[cell := beeperCountDict[cell] + 1];
    }

    /** Takes the first beeper on (row, column) in list order, if any, and lowers that cell's count. */
    method RemoveBeeper(row: int, column: int)
      requires CountAt(beepers, Cell(row, column)) > 0 ==> Cell(row, column) in beeperCountDict
      modifies this
      ensures BeeperRemoved(row, column)
      ensures old(Consistent()) ==> Consistent()
      ensures old(Covers()) ==> Covers()
    {
      var cell := Cell(row, column);
      forall d | true
        ensures CountAt(RemoveFirstAt(beepers, cell), d) ==
                if d == cell && CountAt(beepers, cell) > 0 then CountAt(beepers, d) - 1 else CountAt(beepers, d)
      {
        RemoveFirstCounts(beepers, cell, d);
      }
      FoundIffPresent(beepers, cell);
      var index := 0;
      while index < |beepers|
        invariant 0 <= index <= |beepers|
        invariant beepers == old(beepers) && beeperCountDict == old(beeperCountDict)
        invariant obstacles == old(obstacles) && obstaclePositions == old(obstaclePositions)
        invariant numRows == old(numRows) && numCols == old(numCols)
        invariant forall j :: 0 <= j < index ==> !At(beepers[j], cell)
      {
        if beepers[index].row == row && beepers[index].column == column {
          beepers := beepers[..index] + beepers[index + 1..];
          beeperCountDict := beeperCountDict[cell := beeperCountDict[cell] - 1];
          return;
        }
        index := index + 1;
      }
    }

    /** Zeroes the cell's count (the beeper entities stay), then places one more obstacle there. */
    method AddObstacle(row: int, column: int, id: Id)
      requires Cell(row, column) in obstaclePositions
      modifies this
      ensures ObstacleAdded(row, column, id)
      ensures old(Consistent()) ==> Consistent()
      ensures old(Covers()) ==> Covers()
    {
      if Cell(row, column) in beeperCountDict {
        beeperCountDict := beeperCountDict[Cell(row, column) := 0];
      }
      var newObstacle := Token(id, row, column);
      CountConcat(obstacles, [newObstacle], Cell(row, column));
      forall d | true
        ensures CountAt(obstacles + [newObstacle], d) >= CountAt(obstacles, d)
      {
        CountConcat(obstacles, [newObstacle], d);
      }
      obstacles := obstacles + [newObstacle];
      var cell := Cell(row, column);
      obstaclePositions := obstaclePositions[cell := 1];
    }

    /** Empties `beepers` and maps every cell of the grid to 0; obstacles are untouched. */
    method RemoveAllBeepers()
      requires 0 <= numRows && 0 <= numCols
      modifies this
      ensures beepers == []
      ensures forall c :: c in beeperCountDict <==> InGrid(c, numRows, numCols)
      ensures forall c :: c in beeperCountDict ==> beeperCountDict[c] == 0
      ensures obstacles == old(obstacles) && obstaclePositions == old(obstaclePositions)
      ensures numRows == old(numRows) && numCols == old(numCols)
      ensures old(Consistent()) ==> Consistent()
      ensures old(Covers()) ==> Covers()
    {
      beepers := [];
      var counts := ZeroGrid(numRows, numCols);
      beeperCountDict := counts;
    }

    /** Empties `obstacles` and maps every cell of the grid to 0; beepers are untouched. */
    method RemoveAllObstacles()
      requires 0 <= numRows && 0 <= numCols
      modifies this
      ensures obstacles == []
      ensures forall c :: c in obstaclePositions <==> InGrid(c, numRows, numCols)
      ensures forall c :: c in obstaclePositions ==> obstaclePositions[c] == 0
      ensures beepers == old(beepers) && beeperCountDict == old(beeperCountDict)
      ensures numRows == old(numRows) && numCols == old(numCols)
      ensures old(Consistent()) ==> Consistent()
      ensures old(Covers()) ==> Covers()
    {
      obstacles := [];
      var positions := ZeroGrid(numRows, numCols);
      obstaclePositions := positions;
    }

    method ChangeNumRows(number: int)
      modifies this
      ensures numRows == number
      ensures numCols == old(numCols) && beepers == old(beepers) && obstacles == old(obstacles)
      ensures beeperCountDict == old(beeperCountDict) && obstaclePositions == old(obstaclePositions)
      ensures old(Consistent()) ==> Consistent()
    {
      numRows := number;
    }

    method ChangeNumCols(number: int)
      modifies this
      ensures numCols == number
      ensures numRows == old(numRows) && beepers == old(beepers) && obstacles == old(obstacles)
      ensures beeperCountDict == old(beeperCountDict) && obstaclePositions == old(obstaclePositions)
      ensures old(Consistent()) ==> Consistent()
    {
      numCols := number;
    }

    /** Rebuilds the count map over rows x cols, all zero, and drops every beeper, whatever was there. */
    method UpdateBeeperCountDict(rows: int, cols: int)
      requires 0 <= rows && 0 <= cols
      modifies this
      ensures beepers == []
      ensures forall c :: c in beeperCountDict <==> InGrid(c, rows, cols)
      ensures forall c :: c in beeperCountDict ==> beeperCountDict[c] == 0
      ensures obstacles == old(obstacles) && obstaclePositions == old(obstaclePositions)
      ensures numRows == old(numRows) && numCols == old(numCols)
      ensures old(Consistent()) ==> Consistent()
    {
      var newBeeperDict := ZeroGrid(rows, cols);
      beeperCountDict := newBeeperDict;
      beepers := [];
    }

    /** Rebuilds the presence map over rows x cols, all zero, and drops every obstacle, whatever was there. */
    method UpdateObstaclePositions(rows: int, cols: int)
      requires 0 <= rows && 0 <= cols
      modifies this
      ensures obstacles == []
      ensures forall c :: c in obstaclePositions <==> InGrid(c, rows, cols)
      ensures forall c :: c in obstaclePositions ==> obstaclePositions[c] == 0
      ensures beepers == old(beepers) && beeperCountDict == old(beeperCountDict)
      ensures numRows == old(numRows) && numCols == old(numCols)
      ensures old(Consistent()) ==> Consistent()
    {
      var newObstaclePositions := ZeroGrid(rows, cols);
      obstaclePositions := newObstaclePositions;
      obstacles := [];
    }

    /**
     * What the editor does when a stepper (range 1...10) is released:
     * set the dimension, then rebuild the beeper map, then the obstacle map.
     * The resulting world is empty whatever it held before.
     */
    method Resize(rows: int, cols: int)
      requires 1 <= rows <= 10 && 1 <= cols <= 10
      modifies this
      ensures numRows == rows && numCols == cols
      ensures beepers == [] && obstacles == []
      ensures Covers() && AllZero() && Consistent()
    {
      ChangeNumRows(rows);
      ChangeNumCols(cols);
      UpdateBeeperCountDict(numRows, numCols);
      UpdateObstaclePositions(numRows, numCols);
    }
  }

  /**
   * `addObstacle` keeps "count <= beepers on the cell" but not equality: in a
   * 1 x 1 world, `addBeeper` then `addObstacle` on the one cell leaves its
   * count at 0 while its beeper stays in the list.
   */
  method ObstacleHidesBeeper(id: Id, obstacleId: Id) returns (count: int, beepersOnCell: nat)
    ensures count == 0 && beepersOnCell == 1
  {
    var p := new Playground(1, 1, [], []);
    var cell := Cell(0, 0);
    p.AddBeeper(0, 0, id);
    p.AddObstacle(0, 0, obstacleId);
    assert p.beepers == [Token(id, 0, 0)];
    assert p.beepers[1..] == [];
    count := p.beeperCountDict[cell];
    beepersOnCell := CountAt(p.beepers, cell);
  }
}
