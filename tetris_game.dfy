/** The state-changing half of the Tetris engine: the `Game` class with its
    board, falling piece, queued kind, ghost (landing) position, score and
    game-over flag. Every method is proved against the pure rules of
    `TetrisRules`; `Valid` is the invariant the key handler keeps. */
module TetrisGame {
  import opened Wrappers
  import opened TetrisRules

  /** One empty row, built cell by cell as initializeBoard and clearLines do. */
  method NewEmptyRow() returns (row: Row)
    ensures row == EmptyRow()
  {
    row := [];
    var i := 0;
    while i < Width
      invariant 0 <= i <= Width && |row| == i
      invariant forall c :: 0 <= c < i ==> !row[c]
    {
      row := row + [false];
      i := i + 1;
    }
  }

  /** What the specifications below see of a game: every field of `Game`. */
  datatype Snapshot = Snapshot(
    board: Board, current: Option<Piece>, next: Option<Kind>, ghostPiece: Option<Point>,
    score: nat, gameOver: bool, dropTime: int)

  /** The board is 20 by 10, holds no full row between commands, and the fall
      interval matches the score. */
  ghost predicate BoardInvariant(g: Snapshot) {
    WellFormed(g.board) && NoFullRows(g.board) && g.dropTime == DropInterval(g.score)
  }

  /** Besides the board invariant: the falling piece has a proper shape, the
      ghost marks its landing row, and while the game runs the piece does not
      overlap anything. */
  ghost predicate Consistent(g: Snapshot) {
    BoardInvariant(g) &&
    (g.current.Some? ==>
      var p := g.current.value;
      PieceShape(p.shape) && g.ghostPiece.Some? && g.ghostPiece.value.x == p.x &&
      IsLanding(g.board, p.shape, p.x, p.y, g.ghostPiece.value.y) &&
      (!g.gameOver ==> !Collides(g.board, p.shape, p.x, p.y)))
  }

  /** The kind createNewPiece spawns: the queued one, or the first draw when
      nothing is queued. */
  function SpawnKind(queued: Option<Kind>, roll: Kind): Kind {
    if queued.Some? then queued.value else roll
  }

  /** The effect of createNewPiece, from g0 to g: the spawn kind falls from
      the top, the second draw is queued, and the game ends if the new piece
      does not fit; board, score and fall interval stay. */
  ghost predicate Spawned(g0: Snapshot, g: Snapshot, roll: Kind, nextRoll: Kind)
    requires WellFormed(g0.board)
  {
    var q := Spawn(SpawnKind(g0.next, roll));
    g.board == g0.board && g.score == g0.score && g.dropTime == g0.dropTime &&
    g.current == Some(q) && g.next == Some(nextRoll) &&
    g.gameOver == (g0.gameOver || Collides(g0.board, q.shape, q.x, q.y))
  }

  /** The facts createNewPiece establishes, field by field, add up to a
      consistent state. */
  lemma SpawnedConsistent(g0: Snapshot, g: Snapshot, roll: Kind, nextRoll: Kind)
    requires BoardInvariant(g0)
    requires g.board == g0.board && g.score == g0.score && g.dropTime == g0.dropTime
    requires g.current == Some(Spawn(SpawnKind(g0.next, roll))) && g.next == Some(nextRoll)
    requires var q := g.current.value;
      g.ghostPiece.Some? && g.ghostPiece.value.x == q.x &&
      IsLanding(g.board, q.shape, q.x, q.y, g.ghostPiece.value.y) &&
      g.gameOver == (g0.gameOver || Collides(g.board, q.shape, q.x, q.y))
    ensures Consistent(g) && Spawned(g0, g, roll, nextRoll)
  {
  }

  /** LockedAndRespawned, from the facts LockPiece states field by field. */
  lemma LockedAndRespawnedIntro(g0: Snapshot, g: Snapshot, p: Piece, roll: Kind, nextRoll: Kind)
    requires WellFormed(g0.board) && NoFullRows(g0.board) && |p.shape| <= 4
    requires g.board == LockedBoard(g0.board, p) && g.score == g0.score + LockPoints(g0.board, p)
    requires g.dropTime == DropInterval(g.score)
    requires var q := Spawn(SpawnKind(g0.next, roll));
      g.current == Some(q) && g.next == Some(nextRoll) &&
      g.gameOver == (g0.gameOver || Collides(g.board, q.shape, q.x, q.y))
    ensures LockedAndRespawned(g0, g, p, roll, nextRoll)
  {
  }

  /** The effect of startGame, from g0 to g: an empty board, score 0, the
      initial interval, then a spawn, which always fits. */
  ghost predicate Restarted(g0: Snapshot, g: Snapshot, roll: Kind, nextRoll: Kind) {
    Spawned(g0.(board := EmptyBoard(), score := 0, gameOver := false, dropTime := 1000), g, roll, nextRoll) &&
    !g.gameOver
  }

  /** The state right after mergePiece and clearLines have locked p, which is
      still the current piece then. */
  ghost function AfterLock(g0: Snapshot, p: Piece): (g: Snapshot)
    requires WellFormed(g0.board) && NoFullRows(g0.board) && |p.shape| <= 4
    ensures WellFormed(g.board) && NoFullRows(g.board)
    ensures g.next == g0.next && g.gameOver == g0.gameOver && g.score >= g0.score
  {
    var score := g0.score + LockPoints(g0.board, p);
    g0.(board := LockedBoard(g0.board, p), current := Some(p), score := score, dropTime := DropInterval(score))
  }

  /** The tail shared by moveDown and hardDrop: p is locked, full rows are
      removed and scored, and then the queued kind spawns. */
  ghost predicate LockedAndRespawned(g0: Snapshot, g: Snapshot, p: Piece, roll: Kind, nextRoll: Kind)
    requires WellFormed(g0.board) && NoFullRows(g0.board) && |p.shape| <= 4
  {
    Spawned(AfterLock(g0, p), g, roll, nextRoll)
  }

  /** Board, score, queue and game-over flag are untouched. */
  ghost predicate SameBoard(g0: Snapshot, g: Snapshot) {
    g.board == g0.board && g.score == g0.score && g.next == g0.next && g.gameOver == g0.gameOver
  }

  /** The effect of moveDown: one row down when that row is free, otherwise the
      piece locks where it is. */
  ghost predicate DescendedOrLocked(g0: Snapshot, g: Snapshot, roll: Kind, nextRoll: Kind)
    requires Consistent(g0)
  {
    if g0.current.None? then SameBoard(g0, g) && g.current == g0.current
    else
      var p := g0.current.value;
      if Collides(g0.board, p.shape, p.x, p.y + 1) then LockedAndRespawned(g0, g, p, roll, nextRoll)
      else SameBoard(g0, g) && g.current == Some(p.(y := p.y + 1))
  }

  /** The effect of hardDrop: the piece locks at its landing row. */
  ghost predicate Dropped(g0: Snapshot, g: Snapshot, roll: Kind, nextRoll: Kind)
    requires Consistent(g0)
  {
    if g0.current.None? then SameBoard(g0, g) && g.current == g0.current
    else LockedAndRespawned(g0, g, g0.current.value.(y := g0.ghostPiece.value.y), roll, nextRoll)
  }

  /** The effect of an arrow key to the side: the piece moves dx columns unless
      it would then overlap something. */
  ghost predicate Shifted(g0: Snapshot, g: Snapshot, dx: int)
    requires WellFormed(g0.board)
  {
    SameBoard(g0, g) &&
    if g0.current.None? then g.current == g0.current
    else
      var p := g0.current.value;
      var q := p.(x := p.x + dx);
      g.current == Some(if Collides(g0.board, q.shape, q.x, q.y) then p else q)
  }

  /** The effect of rotatePiece. */
  ghost predicate Turned(g0: Snapshot, g: Snapshot, direction: int)
    requires Consistent(g0)
  {
    SameBoard(g0, g) &&
    if g0.current.None? then g.current == g0.current
    else g.current == Some(RotateOutcome(g0.board, g0.current.value, direction))
  }

  class Game {
    var board: Board
    var current: Option<Piece>
    var next: Option<Kind>
    var ghostPiece: Option<Point>
    var score: nat
    var gameOver: bool
    var dropTime: int

    function State(): Snapshot
      reads this
    {
      Snapshot(board, current, next, ghostPiece, score, gameOver, dropTime)
    }

    ghost predicate Valid()
      reads this
    {
      Consistent(State())
    }

    constructor (roll: Kind, nextRoll: Kind)
      ensures Valid()
      ensures board == EmptyBoard() && score == 0 && !gameOver && dropTime == 1000
      ensures current == Some(Spawn(roll)) && next == Some(nextRoll)
    {
      board := [];
      score := 0;
      gameOver := false;
      dropTime := 1000;
      ghostPiece := None;
      current := None;
      next := None;
      new;
      InitializeBoard();
      StartGame(roll, nextRoll);
    }

    /** initializeBoard: twenty empty rows of ten cells. */
    method InitializeBoard()
      modifies this`board
      ensures board == EmptyBoard()
    {
      board := [];
      var i := 0;
      while i < Height
        invariant 0 <= i <= Height && |board| == i
        invariant forall r :: 0 <= r < i ==> board[r] == EmptyRow()
      {
        var row := NewEmptyRow();
        board := board + [row];
        i := i + 1;
      }
    }

    /** createNewPiece: the queued kind (or the first draw, when nothing is
        queued) spawns at the top, the second draw is queued, the ghost is
        placed, and the game ends if the new piece does not fit. */
    method CreateNewPiece(roll: Kind, nextRoll: Kind)
      requires BoardInvariant(State())
      modifies this`next, this`current, this`ghostPiece, this`gameOver
      ensures Valid() && Spawned(old(State()), State(), roll, nextRoll)
    {
      if next.None? {
        next := Some(roll);
      }
      current := Some(Spawn(next.value));
      next := Some(nextRoll);
      UpdateGhostPiece();
      var hit := CheckCurrentCollision();
      if hit {
        gameOver := true;
      }
      SpawnedConsistent(old(State()), State(), roll, nextRoll);
    }

    /** checkCollision(shape, x, y): some occupied cell of the shape is left
        of, right of or below the board, or on a filled cell. */
    method CheckCollision(shape: Shape, x: int, y: int) returns (hit: bool)
      requires WellFormed(board)
      ensures hit == Collides(board, shape, x, y)
    {
      var row := 0;
      while row < |shape|
        invariant 0 <= row <= |shape| && !ShapeHits(board, shape, x, y, row)
      {
        var col := 0;
        while col < |shape[row]|
          invariant 0 <= col <= |shape[row]| && !RowHits(board, shape, x, y, row, col)
        {
          if shape[row][col] {
            var boardX := x + col;
            var boardY := y + row;
            if boardX < 0 || boardX >= Width || boardY >= Height || (boardY >= 0 && board[boardY][boardX]) {
              CollidesIff(board, shape, x, y);
              return true;
            }
          }
          col := col + 1;
        }
        row := row + 1;
      }
      return false;
    }

    /** checkCollision() with its defaults: the falling piece where it is, and
        no collision when there is no falling piece. */
    method CheckCurrentCollision() returns (hit: bool)
      requires WellFormed(board)
      ensures hit == (current.Some? && Collides(board, current.value.shape, current.value.x, current.value.y))
    {
      if current.None? {
        return false;
      }
      hit := CheckCollision(current.value.shape, current.value.x, current.value.y);
    }

    /** updateGhostPiece: from the piece's own row, step down while the next
        row is free; the ghost ends on the landing row. */
    method UpdateGhostPiece()
      requires WellFormed(board) && (current.Some? ==> HasCell(current.value.shape))
      modifies this`ghostPiece
      ensures current.None? ==> ghostPiece == old(ghostPiece)
      ensures current.Some? ==>
        ghostPiece.Some? && ghostPiece.value.x == current.value.x &&
        IsLanding(board, current.value.shape, current.value.x, current.value.y, ghostPiece.value.y)
    {
      if current.None? {
        return;
      }
      var p := current.value;
      ghostPiece := Some(Point(p.x, p.y));
      var hit := CheckCollision(p.shape, ghostPiece.value.x, ghostPiece.value.y + 1);
      while !hit
        invariant ghostPiece.Some? && ghostPiece.value.x == p.x && ghostPiece.value.y >= p.y
        invariant forall k :: p.y < k <= ghostPiece.value.y ==> !Collides(board, p.shape, p.x, k)
        invariant hit == Collides(board, p.shape, p.x, ghostPiece.value.y + 1)
        decreases Height - ghostPiece.value.y
      {
        FloorCollides(board, p.shape, p.x, ghostPiece.value.y + 1);
        ghostPiece := Some(ghostPiece.value.(y := ghostPiece.value.y + 1));
        hit := CheckCollision(p.shape, ghostPiece.value.x, ghostPiece.value.y + 1);
      }
    }

    /** rotatePiece: the rotated shape is tried at each offset of the first
        row of the kick table (x + dx, y - dy), the first one that fits is
        taken, and when none fits the piece keeps its old shape and place. */
    method RotatePiece(direction: int)
      requires Valid()
      modifies this`current, this`ghostPiece
      ensures Valid() && Turned(old(State()), State(), direction)
    {
      if current.None? {
        return;
      }
      var p := current.value;
      var q := KickSearch(p, direction);
      RotatedIsPieceShape(p.shape, direction);
      current := Some(q);
      UpdateGhostPiece();
    }

    /** The kick search of rotatePiece, on the current board: the piece it
        settles on, which is p itself when no kick fits. */
    method KickSearch(p: Piece, direction: int) returns (q: Piece)
      requires WellFormed(board) && IsGrid(p.shape)
      ensures q == RotateOutcome(board, p, direction)
    {
      var newShape := Rotated(p.shape, direction);
      var kicks := TriedKicks(p.kind);
      var i := 0;
      while i < |kicks|
        invariant 0 <= i <= |kicks|
        invariant forall j :: 0 <= j < i ==> Collides(board, newShape, p.x + kicks[j].dx, p.y - kicks[j].dy)
      {
        var hit := CheckCollision(newShape, p.x + kicks[i].dx, p.y - kicks[i].dy);
        if !hit {
          RotateOutcomeFirstFit(board, p, direction, i);
          return p.(shape := newShape, x := p.x + kicks[i].dx, y := p.y - kicks[i].dy);
        }
        i := i + 1;
      }
      RotateRejected(board, p, direction);
      return p;
    }

    /** mergePiece: every occupied cell of the piece at or below the top row
        is written into the board. */
    method MergePiece()
      requires WellFormed(board) && (current.Some? ==> InsideWalls(current.value))
      modifies this`board
      ensures current.None? ==> board == old(board)
      ensures current.Some? ==> board == Merged(old(board), current.value)
    {
      if current.None? {
        return;
      }
      var p := current.value;
      var y := 0;
      while y < |p.shape|
        invariant 0 <= y <= |p.shape| && WellFormed(board)
        invariant forall r, c :: 0 <= r < Height && 0 <= c < Width ==>
          board[r][c] == (old(board)[r][c] || (Covers(p, r, c) && r - p.y < y))
      {
        var x := 0;
        while x < |p.shape[y]|
          invariant 0 <= x <= |p.shape[y]| && WellFormed(board)
          invariant forall r, c :: 0 <= r < Height && 0 <= c < Width ==>
            board[r][c] == (old(board)[r][c] || (Covers(p, r, c) && (r - p.y < y || (r - p.y == y && c - p.x < x))))
        {
          if p.shape[y][x] {
            var boardY := p.y + y;
            if boardY >= 0 {
              board := board[boardY := board[boardY][p.x + x := true]];
            }
          }
          x := x + 1;
        }
        y := y + 1;
      }
      var m := Merged(old(board), p);
      forall r | 0 <= r < Height
        ensures board[r] == m[r]
      {
        assert forall c :: 0 <= c < Width ==> board[r][c] == m[r][c];
      }
    }

    /** clearLines: from the bottom row up, every full row is removed and an
        empty row is put on top (the same index is then looked at again);
        afterwards the score gains the table points for the number of rows
        removed and the fall interval is recomputed. */
    method ClearLines()
      requires WellFormed(board) && FullCount(board) <= 4
      modifies this`board, this`score, this`dropTime
      ensures board == Cleared(old(board))
      ensures score == old(score) + LineScore(FullCount(old(board)))
      ensures dropTime == if FullCount(old(board)) > 0 then DropInterval(score) else old(dropTime)
      ensures old(dropTime) == DropInterval(old(score)) ==> dropTime == DropInterval(score)
    {
      var linesCleared := RemoveFullRows();
      if linesCleared > 0 {
        score := score + LineScore(linesCleared);
        dropTime := DropInterval(score);
      }
    }

    /** The scan of clearLines from the bottom row up: a full row is spliced
        out and an empty row is put on top, and the same index is looked at
        again. Returns how many rows were removed. */
    method RemoveFullRows() returns (linesCleared: nat)
      requires WellFormed(board)
      modifies this`board
      ensures board == Cleared(old(board)) && linesCleared == FullCount(old(board))
    {
      ghost var orig := board;
      ghost var p: nat := Height;
      linesCleared := 0;
      var y := Height - 1;
      ScanStart(orig);
      while y >= 0
        invariant Scanning(board, orig, p, linesCleared, y)
        decreases y + p + 1
      {
        ScanStep(board, orig, p, linesCleared, y);
        if IsFull(board[y]) {
          // splice(y, 1) and unshift(newRow); the source's y++ and the
          // loop's y-- cancel, so index y is looked at again
          var newRow := NewEmptyRow();
          board := [newRow] + (board[..y] + board[y + 1..]);
          linesCleared := linesCleared + 1;
          p := p - 1;
        } else {
          p := if p > 0 then p - 1 else 0;
          y := y - 1;
        }
      }
      assert p == 0;
      ScanDone(board, orig, linesCleared, y);
    }

    /** moveDown: one row down; when that row is taken, the piece goes back
        up, locks, full rows clear and the next piece spawns. */
    method MoveDown(roll: Kind, nextRoll: Kind)
      requires Valid() && !gameOver
      modifies this
      ensures Valid() && DescendedOrLocked(old(State()), State(), roll, nextRoll)
    {
      if current.None? {
        return;
      }
      var p := current.value;
      current := Some(p.(y := p.y + 1));
      var hit := CheckCurrentCollision();
      if hit {
        current := Some(current.value.(y := current.value.y - 1));
        assert current == Some(p);
        LockPiece(roll, nextRoll);
        LockedAndRespawnedIntro(old(State()), State(), p, roll, nextRoll);
      } else {
        LandingAfterStep(board, p.shape, p.x, p.y, ghostPiece.value.y);
      }
    }

    /** hardDrop: the piece moves to its ghost row and locks there. */
    method HardDrop(roll: Kind, nextRoll: Kind)
      requires Valid() && !gameOver
      modifies this
      ensures Valid() && Dropped(old(State()), State(), roll, nextRoll)
    {
      if current.None? || ghostPiece.None? {
        return;
      }
      var p := current.value.(y := ghostPiece.value.y);
      current := Some(p);
      LockPiece(roll, nextRoll);
      LockedAndRespawnedIntro(old(State()), State(), p, roll, nextRoll);
    }

    /** The sequence mergePiece, clearLines, createNewPiece that ends both
        moveDown and hardDrop, for a piece that fits where it is. */
    method LockPiece(roll: Kind, nextRoll: Kind)
      requires BoardInvariant(State()) && current.Some?
      requires PieceShape(current.value.shape)
      requires !Collides(board, current.value.shape, current.value.x, current.value.y)
      modifies this
      ensures Valid()
      ensures board == LockedBoard(old(board), old(current.value))
      ensures score == old(score) + LockPoints(old(board), old(current.value))
      ensures var q := Spawn(SpawnKind(old(next), roll));
        current == Some(q) && next == Some(nextRoll) &&
        gameOver == (old(gameOver) || Collides(board, q.shape, q.x, q.y))
    {
      var p := current.value;
      NoCollisionInsideWalls(board, p);
      MergeFillsAtMostPieceHeight(board, p);
      MergePiece();
      ClearLines();
      assert gameOver == old(gameOver) && next == old(next);
      CreateNewPiece(roll, nextRoll);
    }

    /** handleKeyPress: once the game is over only "r"/"R" (restart) has an
        effect; otherwise the arrows move, drop and rotate, space hard-drops,
        "z"/"Z" rotates the other way, and any other key changes nothing. */
    method HandleKeyPress(key: string, roll: Kind, nextRoll: Kind)
      requires Valid()
      modifies this
      ensures Valid()
      ensures old(gameOver) ==>
        if key == "r" || key == "R" then Restarted(old(State()), State(), roll, nextRoll)
        else State() == old(State())
      ensures !old(gameOver) ==>
        var g0, g := old(State()), State();
        if key == "ArrowLeft" then Shifted(g0, g, -1)
        else if key == "ArrowRight" then Shifted(g0, g, 1)
        else if key == "ArrowDown" then DescendedOrLocked(g0, g, roll, nextRoll)
        else if key == " " then Dropped(g0, g, roll, nextRoll)
        else if key == "ArrowUp" then Turned(g0, g, 1)
        else if key == "z" || key == "Z" then Turned(g0, g, -1)
        else g == g0
    {
      if gameOver {
        if key == "r" || key == "R" {
          StartGame(roll, nextRoll);
        }
        return;
      }
      if key == "ArrowLeft" || key == "ArrowRight" {
        var dx := if key == "ArrowLeft" then -1 else 1;
        if current.Some? {
          current := Some(current.value.(x := current.value.x + dx));
          var hit := CheckCurrentCollision();
          if hit {
            current := Some(current.value.(x := current.value.x - dx));
          } else {
            UpdateGhostPiece();
          }
        }
      } else if key == "ArrowDown" {
        MoveDown(roll, nextRoll);
      } else if key == " " {
        HardDrop(roll, nextRoll);
      } else if key == "ArrowUp" {
        RotatePiece(1);
      } else if key == "z" || key == "Z" {
        RotatePiece(-1);
      }
    }

    /** startGame: an empty board, score 0, the initial fall interval, and a
        freshly spawned piece. */
    method StartGame(roll: Kind, nextRoll: Kind)
      modifies this
      ensures Valid() && Restarted(old(State()), State(), roll, nextRoll)
    {
      ghost var g0 := State();
      InitializeBoard();
      score := 0;
      gameOver := false;
      dropTime := 1000;
      assert State() == g0.(board := EmptyBoard(), score := 0, gameOver := false, dropTime := 1000);
      SpawnFitsEmptyBoard(SpawnKind(next, roll));
      CreateNewPiece(roll, nextRoll);
    }
  }
}
