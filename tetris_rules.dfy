/** The state-free rules of the Tetris engine of tetrisGame/script.ts (the
    compiled script.js is the same code): the piece table, the wall-kick table,
    the collision test, the two rotations, and the specifications of locking a
    piece into the board and of removing full rows, with their scoring. The
    `Game` class in tetris_game.dfy runs these rules step by step. */
module TetrisRules {

  /** The board is `Height` rows of `Width` cells (totalSquaresHeight, totalSquaresWidth). */
  const Width := 10
  const Height := 20

  /** A cell is occupied (the source stores 1) or empty (0). */
  type Row = seq<bool>
  type Board = seq<Row>
  type Shape = seq<seq<bool>>

  datatype Kind = I | O | T | L | J | S | Z

  /** One `[dx, dy]` entry of a wall-kick table. */
  datatype Offset = Offset(dx: int, dy: int)

  /** The falling piece: its type, its current rotation state and its grid position. */
  datatype Piece = Piece(kind: Kind, shape: Shape, x: int, y: int)

  /** A grid position (the ghost piece's x and y). */
  datatype Point = Point(x: int, y: int)

  // ---------------------------------------------------------------------------
  // Board shape

  predicate WellFormed(b: Board) {
    |b| == Height && forall r :: 0 <= r < |b| ==> |b[r]| == Width
  }

  function EmptyRow(): (row: Row)
    ensures |row| == Width && forall c :: 0 <= c < |row| ==> !row[c]
  {
    [false, false, false, false, false, false, false, false, false, false]
  }

  function EmptyBoard(): (b: Board)
    ensures WellFormed(b) && forall r :: 0 <= r < |b| ==> b[r] == EmptyRow()
    ensures forall r :: 0 <= r < |b| ==> !IsFull(b[r])
  {
    var b := Blank(Height);
    assert forall r :: 0 <= r < |b| ==> !b[r][0];
    b
  }

  // ---------------------------------------------------------------------------
  // The piece table (SHAPES) and the wall-kick table (WALL_KICK_DATA)

  /** Reads a table written with 0 and 1, as the source writes its shapes. */
  function Cells(rows: seq<seq<int>>): Shape {
    seq(|rows|, r requires 0 <= r < |rows| => seq(|rows[r]|, c requires 0 <= c < |rows[r]| => rows[r][c] != 0))
  }

  function BaseShape(k: Kind): Shape {
    match k
    case I => Cells([[0, 0, 0, 0], [1, 1, 1, 1], [0, 0, 0, 0], [0, 0, 0, 0]])
    case O => Cells([[1, 1], [1, 1]])
    case T => Cells([[0, 1, 0], [1, 1, 1], [0, 0, 0]])
    case L => Cells([[0, 0, 1], [1, 1, 1], [0, 0, 0]])
    case J => Cells([[1, 0, 0], [1, 1, 1], [0, 0, 0]])
    case S => Cells([[0, 1, 1], [1, 1, 0], [0, 0, 0]])
    case Z => Cells([[1, 1, 0], [0, 1, 1], [0, 0, 0]])
  }

  /** The spawn column of each piece type. */
  function StartX(k: Kind): int {
    if k == O then 4 else 3
  }

  /** WALL_KICK_DATA.JLSTZ: four rows of five offsets each. */
  const JlstzKicks: seq<seq<Offset>> := [
    [Offset(0, 0), Offset(-1, 0), Offset(-1, 1), Offset(0, -2), Offset(-1, -2)],
    [Offset(0, 0), Offset(1, 0), Offset(1, -1), Offset(0, 2), Offset(1, 2)],
    [Offset(0, 0), Offset(1, 0), Offset(1, 1), Offset(0, -2), Offset(1, -2)],
    [Offset(0, 0), Offset(-1, 0), Offset(-1, -1), Offset(0, 2), Offset(-1, 2)]
  ]

  /** WALL_KICK_DATA.I */
  const IKicks: seq<seq<Offset>> := [
    [Offset(0, 0), Offset(-2, 0), Offset(1, 0), Offset(-2, -1), Offset(1, 2)],
    [Offset(0, 0), Offset(-1, 0), Offset(2, 0), Offset(-1, 2), Offset(2, -1)],
    [Offset(0, 0), Offset(2, 0), Offset(-1, 0), Offset(2, 1), Offset(-1, -2)],
    [Offset(0, 0), Offset(1, 0), Offset(-2, 0), Offset(1, -2), Offset(-2, 1)]
  ]

  /** The I piece uses the I table, every other piece the JLSTZ table. */
  function KickTable(k: Kind): (table: seq<seq<Offset>>)
    ensures |table| == 4 && forall i :: 0 <= i < 4 ==> |table[i]| == 5
  {
    if k == I then IKicks else JlstzKicks
  }

  /** The only row of the table that rotation ever tries: `kicks[0]`,
      whatever the direction and the rotation state. */
  function TriedKicks(k: Kind): (kicks: seq<Offset>)
    ensures |kicks| == 5 && kicks[0] == Offset(0, 0)
  {
    KickTable(k)[0]
  }

  // ---------------------------------------------------------------------------
  // Shapes

  /** A non-empty rectangular matrix. */
  predicate IsGrid(s: Shape) {
    |s| > 0 && |s[0]| > 0 && forall r :: 0 <= r < |s| ==> |s[r]| == |s[0]|
  }

  predicate HasCell(s: Shape) {
    exists r, c :: 0 <= r < |s| && 0 <= c < |s[r]| && s[r][c]
  }

  /** What the game keeps true of every shape it moves: a square of side at
      most 4 with at least one occupied cell. */
  predicate PieceShape(s: Shape) {
    IsGrid(s) && |s| == |s[0]| && |s| <= 4 && HasCell(s)
  }

  lemma BaseShapesArePieceShapes(k: Kind)
    ensures PieceShape(BaseShape(k))
  {
    var s := BaseShape(k);
    assert s[1][1];
  }

  // ---------------------------------------------------------------------------
  // Rotation (the two matrix transforms of rotatePiece)

  /** Clockwise, for direction 1: row i of the result is column i read
      from the bottom row up. */
  function RotateCW(s: Shape): (t: Shape)
    requires IsGrid(s)
    ensures IsGrid(t) && |t| == |s[0]| && |t[0]| == |s|
  {
    seq(|s[0]|, i requires 0 <= i < |s[0]| =>
      seq(|s|, j requires 0 <= j < |s| => s[|s| - 1 - j][i]))
  }

  /** Counter-clockwise, for any other direction: row i of the result is
      column (width - 1 - i) read from the top row down. */
  function RotateCCW(s: Shape): (t: Shape)
    requires IsGrid(s)
    ensures IsGrid(t) && |t| == |s[0]| && |t[0]| == |s|
  {
    seq(|s[0]|, i requires 0 <= i < |s[0]| =>
      seq(|s|, j requires 0 <= j < |s| => s[j][|s[j]| - 1 - i]))
  }

  function Rotated(s: Shape, direction: int): (t: Shape)
    requires IsGrid(s)
    ensures IsGrid(t) && |t| == |s[0]| && |t[0]| == |s|
  {
    if direction == 1 then RotateCW(s) else RotateCCW(s)
  }

  /** The two rotations undo each other. */
  lemma RotateRoundTrip(s: Shape)
    requires IsGrid(s)
    ensures RotateCCW(RotateCW(s)) == s
    ensures RotateCW(RotateCCW(s)) == s
  {
    var u := RotateCCW(RotateCW(s));
    forall r | 0 <= r < |s| ensures u[r] == s[r] {
      assert |u[r]| == |s[r]|;
    }
    var v := RotateCW(RotateCCW(s));
    forall r | 0 <= r < |s| ensures v[r] == s[r] {
      assert |v[r]| == |s[r]|;
    }
  }

  /** A quarter turn moves every occupied cell to an occupied cell. */
  lemma RotateMovesCells(s: Shape, r: int, c: int)
    requires IsGrid(s) && 0 <= r < |s| && 0 <= c < |s[r]| && s[r][c]
    ensures RotateCW(s)[c][|s| - 1 - r]
    ensures RotateCCW(s)[|s[0]| - 1 - c][r]
  {
  }

  lemma RotatedIsPieceShape(s: Shape, direction: int)
    requires PieceShape(s)
    ensures PieceShape(Rotated(s, direction))
  {
    var r, c :| 0 <= r < |s| && 0 <= c < |s[r]| && s[r][c];
    RotateMovesCells(s, r, c);
    var t := Rotated(s, direction);
    if direction == 1 {
      assert t[c][|s| - 1 - r];
    } else {
      assert t[|s[0]| - 1 - c][r];
    }
  }

  /** The O piece is its own rotation: a rotation that succeeds with the kick
      (0, 0) leaves an O piece exactly as it was. */
  lemma RotateKeepsO()
    ensures RotateCW(BaseShape(O)) == BaseShape(O)
    ensures RotateCCW(BaseShape(O)) == BaseShape(O)
  {
    var s := BaseShape(O);
    assert RotateCW(s)[0] == s[0] && RotateCW(s)[1] == s[1];
    assert RotateCCW(s)[0] == s[0] && RotateCCW(s)[1] == s[1];
  }

  // ---------------------------------------------------------------------------
  // Collision (checkCollision)

  /** Whether an occupied shape cell landing at board column boardX, row boardY is
      blocked: outside the side walls, at or below the floor, or on an occupied
      cell. Rows above the top (boardY < 0) are never blocked by the board. */
  predicate Blocked(b: Board, boardX: int, boardY: int)
    requires WellFormed(b)
  {
    boardX < 0 || boardX >= Width || boardY >= Height || (boardY >= 0 && b[boardY][boardX])
  }

  /** Shape s placed with its top-left corner at column x, row y has an
      occupied cell at row r, column c of the shape, and that cell is blocked. */
  predicate CellHit(b: Board, s: Shape, x: int, y: int, r: int, c: int)
    requires WellFormed(b)
  {
    0 <= r < |s| && 0 <= c < |s[r]| && s[r][c] && Blocked(b, x + c, y + r)
  }

  /** Some blocked cell among the first n cells of shape row r (the inner loop
      of checkCollision after n steps). */
  predicate RowHits(b: Board, s: Shape, x: int, y: int, r: int, n: nat)
    requires WellFormed(b)
  {
    n > 0 && (RowHits(b, s, x, y, r, n - 1) || CellHit(b, s, x, y, r, n - 1))
  }

  /** Some blocked cell among the first n rows of the shape (the outer loop of
      checkCollision after n steps). */
  predicate ShapeHits(b: Board, s: Shape, x: int, y: int, n: nat)
    requires WellFormed(b) && n <= |s|
  {
    n > 0 && (ShapeHits(b, s, x, y, n - 1) || RowHits(b, s, x, y, n - 1, |s[n - 1]|))
  }

  /** checkCollision(shape, x, y), scanning rows top to bottom and cells left
      to right; CollidesIff states it as "some occupied cell is blocked". */
  predicate Collides(b: Board, s: Shape, x: int, y: int)
    requires WellFormed(b)
  {
    ShapeHits(b, s, x, y, |s|)
  }

  lemma {:induction false} RowHitsIff(b: Board, s: Shape, x: int, y: int, r: int, n: nat)
    requires WellFormed(b)
    ensures RowHits(b, s, x, y, r, n) <==> exists c :: 0 <= c < n && CellHit(b, s, x, y, r, c)
  {
    if n > 0 {
      RowHitsIff(b, s, x, y, r, n - 1);
    }
  }

  lemma {:induction false} ShapeHitsIff(b: Board, s: Shape, x: int, y: int, n: nat)
    requires WellFormed(b) && n <= |s|
    ensures ShapeHits(b, s, x, y, n) <==> exists r, c :: 0 <= r < n && CellHit(b, s, x, y, r, c)
  {
    if n > 0 {
      ShapeHitsIff(b, s, x, y, n - 1);
      RowHitsIff(b, s, x, y, n - 1, |s[n - 1]|);
      if ShapeHits(b, s, x, y, n) && !ShapeHits(b, s, x, y, n - 1) {
        var c :| 0 <= c < |s[n - 1]| && CellHit(b, s, x, y, n - 1, c);
      }
    }
  }

  /** A shape collides exactly when one of its occupied cells is blocked. */
  lemma CollidesIff(b: Board, s: Shape, x: int, y: int)
    requires WellFormed(b)
    ensures Collides(b, s, x, y) <==>
      exists r, c :: 0 <= r < |s| && 0 <= c < |s[r]| && s[r][c] && Blocked(b, x + c, y + r)
  {
    ShapeHitsIff(b, s, x, y, |s|);
    if exists r, c :: 0 <= r < |s| && 0 <= c < |s[r]| && s[r][c] && Blocked(b, x + c, y + r) {
      var r, c :| 0 <= r < |s| && 0 <= c < |s[r]| && s[r][c] && Blocked(b, x + c, y + r);
      assert CellHit(b, s, x, y, r, c);
    }
  }

  /** An occupied cell outside the side walls or at/below the floor always collides. */
  lemma OutOfBoundsCollides(b: Board, s: Shape, x: int, y: int, r: int, c: int)
    requires WellFormed(b)
    requires 0 <= r < |s| && 0 <= c < |s[r]| && s[r][c]
    requires x + c < 0 || x + c >= Width || y + r >= Height
    ensures Collides(b, s, x, y)
  {
    CollidesIff(b, s, x, y);
    assert CellHit(b, s, x, y, r, c);
  }

  /** Board contents never block a cell above the top row: a shape whose
      occupied cells are all inside the side walls and above row 0 does not
      collide, whatever the board holds. */
  lemma AboveTopIsFree(b: Board, s: Shape, x: int, y: int)
    requires WellFormed(b)
    requires forall r, c :: 0 <= r < |s| && 0 <= c < |s[r]| && s[r][c] ==> 0 <= x + c < Width && y + r < 0
    ensures !Collides(b, s, x, y)
  {
    CollidesIff(b, s, x, y);
  }

  /** A shape with an occupied cell collides once it is placed at or below the
      floor, so a piece that does not collide is above the floor. */
  lemma FloorCollides(b: Board, s: Shape, x: int, y: int)
    requires WellFormed(b) && HasCell(s)
    ensures y >= Height ==> Collides(b, s, x, y)
  {
    var r, c :| 0 <= r < |s| && 0 <= c < |s[r]| && s[r][c];
    if y >= Height {
      CollidesIff(b, s, x, y);
      assert Blocked(b, x + c, y + r);
    }
  }

  /** Every occupied cell of the piece lies between the side walls and above the floor. */
  predicate InsideWalls(p: Piece) {
    forall r, c :: 0 <= r < |p.shape| && 0 <= c < |p.shape[r]| && p.shape[r][c] ==>
      0 <= p.x + c < Width && p.y + r < Height
  }

  lemma NoCollisionInsideWalls(b: Board, p: Piece)
    requires WellFormed(b) && !Collides(b, p.shape, p.x, p.y)
    ensures InsideWalls(p)
  {
    CollidesIff(b, p.shape, p.x, p.y);
    forall r, c | 0 <= r < |p.shape| && 0 <= c < |p.shape[r]| && p.shape[r][c]
      ensures 0 <= p.x + c < Width && p.y + r < Height
    {
      assert !Blocked(b, p.x + c, p.y + r);
    }
  }

  // ---------------------------------------------------------------------------
  // First-fit kick search (the `for ... of kicks[0]` loop of rotatePiece)

  /** The index of the first offset at which shape s, placed at (x + dx, y - dy),
      does not collide, or |kicks| when there is none. */
  function FirstFit(b: Board, s: Shape, x: int, y: int, kicks: seq<Offset>): (i: nat)
    requires WellFormed(b)
    ensures i <= |kicks|
    ensures forall j :: 0 <= j < i ==> Collides(b, s, x + kicks[j].dx, y - kicks[j].dy)
    ensures i < |kicks| ==> !Collides(b, s, x + kicks[i].dx, y - kicks[i].dy)
  {
    if |kicks| == 0 then 0
    else if !Collides(b, s, x + kicks[0].dx, y - kicks[0].dy) then 0
    else 1 + FirstFit(b, s, x, y, kicks[1..])
  }

  /** The piece after rotatePiece: the rotated shape at the first fitting kick,
      or the piece unchanged when no kick fits. */
  function RotateOutcome(b: Board, p: Piece, direction: int): (q: Piece)
    requires WellFormed(b) && IsGrid(p.shape)
    ensures q.kind == p.kind
    ensures q == p || (q.shape == Rotated(p.shape, direction) && !Collides(b, q.shape, q.x, q.y))
  {
    var s := Rotated(p.shape, direction);
    var kicks := TriedKicks(p.kind);
    var i := FirstFit(b, s, p.x, p.y, kicks);
    if i < |kicks| then p.(shape := s, x := p.x + kicks[i].dx, y := p.y - kicks[i].dy) else p
  }

  /** A rotation is rejected, leaving the piece as it was, exactly when every
      tried kick collides; it succeeds with the first kick that fits. */
  lemma RotateOutcomeFirstFit(b: Board, p: Piece, direction: int, k: int)
    requires WellFormed(b) && IsGrid(p.shape) && 0 <= k < 5
    requires forall j :: 0 <= j < k ==>
      Collides(b, Rotated(p.shape, direction), p.x + TriedKicks(p.kind)[j].dx, p.y - TriedKicks(p.kind)[j].dy)
    requires !Collides(b, Rotated(p.shape, direction), p.x + TriedKicks(p.kind)[k].dx, p.y - TriedKicks(p.kind)[k].dy)
    ensures RotateOutcome(b, p, direction) ==
      p.(shape := Rotated(p.shape, direction), x := p.x + TriedKicks(p.kind)[k].dx, y := p.y - TriedKicks(p.kind)[k].dy)
  {
    var s := Rotated(p.shape, direction);
    var i := FirstFit(b, s, p.x, p.y, TriedKicks(p.kind));
    assert i == k;
  }

  lemma RotateRejected(b: Board, p: Piece, direction: int)
    requires WellFormed(b) && IsGrid(p.shape)
    requires forall j :: 0 <= j < 5 ==>
      Collides(b, Rotated(p.shape, direction), p.x + TriedKicks(p.kind)[j].dx, p.y - TriedKicks(p.kind)[j].dy)
    ensures RotateOutcome(b, p, direction) == p
  {
    var s := Rotated(p.shape, direction);
    var i := FirstFit(b, s, p.x, p.y, TriedKicks(p.kind));
    assert i == 5;
  }

  // ---------------------------------------------------------------------------
  // Landing row (updateGhostPiece)

  /** gy is where the piece lands when dropped straight down from row y: the
      first row at or below y from which one more step down collides. */
  predicate IsLanding(b: Board, s: Shape, x: int, y: int, gy: int)
    requires WellFormed(b)
  {
    gy >= y && Collides(b, s, x, gy + 1) && forall k :: y < k <= gy ==> !Collides(b, s, x, k)
  }

  /** There is at most one landing row. */
  lemma LandingUnique(b: Board, s: Shape, x: int, y: int, g1: int, g2: int)
    requires WellFormed(b) && IsLanding(b, s, x, y, g1) && IsLanding(b, s, x, y, g2)
    ensures g1 == g2
  {
  }

  /** A piece that can step down one row keeps its landing row. */
  lemma LandingAfterStep(b: Board, s: Shape, x: int, y: int, gy: int)
    requires WellFormed(b) && IsLanding(b, s, x, y, gy) && !Collides(b, s, x, y + 1)
    ensures IsLanding(b, s, x, y + 1, gy)
  {
  }

  // ---------------------------------------------------------------------------
  // Locking a piece (mergePiece)

  /** Whether the piece has an occupied cell at board row r, column c. */
  predicate Covers(p: Piece, r: int, c: int) {
    0 <= r - p.y < |p.shape| && 0 <= c - p.x < |p.shape[r - p.y]| && p.shape[r - p.y][c - p.x]
  }

  /** The board after locking p: every cell under an occupied shape cell is
      set; rows above the top are not written; no other cell changes. */
  function Merged(b: Board, p: Piece): (m: Board)
    requires WellFormed(b)
    ensures WellFormed(m)
    ensures forall r, c :: 0 <= r < Height && 0 <= c < Width && Covers(p, r, c) ==> m[r][c]
    ensures forall r, c :: 0 <= r < Height && 0 <= c < Width && !Covers(p, r, c) ==> m[r][c] == b[r][c]
  {
    MergedRows(b, p, Height)
  }

  /** The first n rows of Merged(b, p). */
  function MergedRows(b: Board, p: Piece, n: nat): (m: Board)
    requires WellFormed(b) && n <= Height
    ensures |m| == n
    ensures forall r :: 0 <= r < n ==> m[r] == MergedRow(b[r], p, r, Width)
  {
    if n == 0 then [] else MergedRows(b, p, n - 1) + [MergedRow(b[n - 1], p, n - 1, Width)]
  }

  /** The first n cells of board row r after locking p. */
  function MergedRow(row: Row, p: Piece, r: int, n: nat): (m: Row)
    requires n <= |row|
    ensures |m| == n
    ensures forall c :: 0 <= c < n ==> m[c] == (row[c] || Covers(p, r, c))
  {
    if n == 0 then [] else MergedRow(row, p, r, n - 1) + [row[n - 1] || Covers(p, r, n - 1)]
  }

  function RowCount(row: Row): nat {
    if row == [] then 0 else (if row[0] then 1 else 0) + RowCount(row[1..])
  }

  /** The number of occupied cells of a board. */
  function Occupied(b: Board): nat {
    if b == [] then 0 else RowCount(b[0]) + Occupied(b[1..])
  }

  lemma {:induction false} RowCountMonotone(a: Row, b: Row)
    requires |a| == |b| && forall c :: 0 <= c < |a| && a[c] ==> b[c]
    ensures RowCount(a) <= RowCount(b)
  {
    if a != [] {
      RowCountMonotone(a[1..], b[1..]);
    }
  }

  lemma {:induction false} OccupiedMonotone(a: Board, b: Board)
    requires |a| == |b| && forall r :: 0 <= r < |a| ==> |a[r]| == |b[r]|
    requires forall r, c :: 0 <= r < |a| && 0 <= c < |a[r]| && a[r][c] ==> b[r][c]
    ensures Occupied(a) <= Occupied(b)
  {
    if a != [] {
      RowCountMonotone(a[0], b[0]);
      OccupiedMonotone(a[1..], b[1..]);
    }
  }

  /** Locking a piece never frees a cell, so the occupied count never decreases. */
  lemma MergeNeverFrees(b: Board, p: Piece)
    requires WellFormed(b)
    ensures Occupied(Merged(b, p)) >= Occupied(b)
  {
    OccupiedMonotone(b, Merged(b, p));
  }

  /** Locking the same piece twice is the same as locking it once. */
  lemma MergeIdempotent(b: Board, p: Piece)
    requires WellFormed(b)
    ensures Merged(Merged(b, p), p) == Merged(b, p)
  {
    var m := Merged(b, p);
    var m2 := Merged(m, p);
    forall r | 0 <= r < Height ensures m2[r] == m[r] {
    }
  }

  // ---------------------------------------------------------------------------
  // Removing full rows (clearLines)

  /** A row is full when every one of its cells is set. */
  predicate IsFull(row: Row) {
    forall c :: 0 <= c < |row| ==> row[c]
  }

  predicate NoFullRows(b: Board) {
    forall r :: 0 <= r < |b| ==> !IsFull(b[r])
  }

  /** The rows that are not full, in their original order. */
  function Kept(rows: seq<Row>): (k: seq<Row>)
    ensures |k| <= |rows|
    ensures forall i :: 0 <= i < |k| ==> !IsFull(k[i]) && k[i] in rows
  {
    if rows == [] then [] else (if IsFull(rows[0]) then [] else [rows[0]]) + Kept(rows[1..])
  }

  /** The number of full rows. */
  function FullCount(rows: seq<Row>): (n: nat)
    ensures n + |Kept(rows)| == |rows|
    ensures n == 0 <==> NoFullRows(rows)
  {
    if rows == [] then 0
    else
      assert forall r :: 1 <= r < |rows| ==> rows[r] == rows[1..][r - 1];
      (if IsFull(rows[0]) then 1 else 0) + FullCount(rows[1..])
  }

  function Blank(n: nat): (rows: seq<Row>)
    ensures |rows| == n && forall r :: 0 <= r < n ==> rows[r] == EmptyRow()
  {
    if n == 0 then [] else [EmptyRow()] + Blank(n - 1)
  }

  /** The board after clearLines: one new empty row on top for every removed
      full row, above the remaining rows in their original order. */
  function Cleared(b: Board): (m: Board)
    requires WellFormed(b)
    ensures WellFormed(m) && NoFullRows(m)
  {
    var m := Blank(FullCount(b)) + Kept(b);
    assert forall r :: 0 <= r < FullCount(b) ==> !m[r][0];
    m
  }

  lemma {:induction false} KeptWhenNoneFull(rows: seq<Row>)
    requires NoFullRows(rows)
    ensures Kept(rows) == rows
  {
    if rows != [] {
      assert !IsFull(rows[0]);
      KeptWhenNoneFull(rows[1..]);
      assert rows == [rows[0]] + rows[1..];
    }
  }

  /** Splicing out the row just above `rest` from `Blank(n) + pending + Kept(rest)`. */
  lemma SpliceRow(n: nat, pending: seq<Row>, rest: seq<Row>)
    requires |pending| > 0
    ensures var board := Blank(n) + pending + Kept(rest);
      var y := n + |pending| - 1;
      var row := pending[|pending| - 1];
      board[y] == row &&
      [EmptyRow()] + (board[..y] + board[y + 1..]) == Blank(n + 1) + pending[..|pending| - 1] + Kept(rest) &&
      board == Blank(n) + pending[..|pending| - 1] + ([row] + Kept(rest))
  {
    var board := Blank(n) + pending + Kept(rest);
    var y := n + |pending| - 1;
    assert board[..y] == Blank(n) + pending[..|pending| - 1];
    assert board[y + 1..] == Kept(rest);
    assert pending == pending[..|pending| - 1] + [pending[|pending| - 1]];
  }

  /** The state of the clearLines scan: the top n rows are the empty rows put
      on top so far, the first p rows of the original board are still to be
      scanned, and below them sit the rows of the rest that were kept; y is
      the index being looked at. */
  ghost predicate Scanning(board: seq<Row>, orig: seq<Row>, p: nat, n: nat, y: int) {
    -1 <= y && p <= |orig| &&
    (p > 0 ==> y + 1 == n + p) && (p == 0 ==> y + 1 <= n) &&
    n == FullCount(orig[p..]) && board == Blank(n) + orig[..p] + Kept(orig[p..])
  }

  /** One step of the scan at index y: a full row is spliced out with an empty
      row on top and y is looked at again; otherwise the scan moves up. */
  lemma ScanStep(board: seq<Row>, orig: seq<Row>, p: nat, n: nat, y: int)
    requires Scanning(board, orig, p, n, y) && y >= 0
    ensures y < |board|
    ensures IsFull(board[y]) ==>
      p > 0 && Scanning([EmptyRow()] + (board[..y] + board[y + 1..]), orig, p - 1, n + 1, y)
    ensures !IsFull(board[y]) ==> Scanning(board, orig, if p > 0 then p - 1 else 0, n, y - 1)
  {
    if p > 0 {
      ScanPending(board, orig, p, n, y);
    } else {
      assert board[y] == EmptyRow() && !board[y][0];
    }
  }

  /** While rows of the original board remain, the row at y is orig[p - 1]:
      splicing it out when full, or passing it otherwise, keeps the scan form
      with one row fewer left to scan. */
  lemma ScanPending(board: seq<Row>, orig: seq<Row>, p: nat, n: nat, y: int)
    requires Scanning(board, orig, p, n, y) && p > 0
    ensures 0 <= y < |board| && board[y] == orig[p - 1]
    ensures IsFull(orig[p - 1]) ==>
      Scanning([EmptyRow()] + (board[..y] + board[y + 1..]), orig, p - 1, n + 1, y)
    ensures !IsFull(orig[p - 1]) ==> Scanning(board, orig, p - 1, n, y - 1)
  {
    var row, rest := orig[p - 1], orig[p..];
    SpliceRow(n, orig[..p], rest);
    assert orig[..p][..p - 1] == orig[..p - 1] && orig[..p][p - 1] == row;
    KeptStep(orig, p);
    if IsFull(row) {
      assert Kept(orig[p - 1..]) == Kept(rest);
    } else {
      assert Kept(orig[p - 1..]) == [row] + Kept(rest);
    }
  }

  /** The scan starts at the bottom row with nothing removed. */
  lemma ScanStart(orig: seq<Row>)
    ensures Scanning(orig, orig, |orig|, 0, |orig| - 1)
  {
    assert orig[..|orig|] == orig && orig[|orig|..] == [];
  }

  /** When the scan has passed the top, the board is the cleared board. */
  lemma ScanDone(board: seq<Row>, orig: seq<Row>, n: nat, y: int)
    requires WellFormed(orig) && Scanning(board, orig, 0, n, y)
    ensures board == Cleared(orig) && n == FullCount(orig)
  {
    assert orig[0..] == orig;
  }

  /** Kept and FullCount take one more row from the front. */
  lemma KeptStep(orig: seq<Row>, p: int)
    requires 0 < p <= |orig|
    ensures Kept(orig[p - 1..]) == (if IsFull(orig[p - 1]) then [] else [orig[p - 1]]) + Kept(orig[p..])
    ensures FullCount(orig[p - 1..]) == (if IsFull(orig[p - 1]) then 1 else 0) + FullCount(orig[p..])
  {
    assert orig[p - 1..][1..] == orig[p..];
  }

  /** A board without full rows is left as it is, so clearing twice is clearing once. */
  lemma ClearedFixpoint(b: Board)
    requires WellFormed(b)
    ensures NoFullRows(b) ==> Cleared(b) == b
    ensures Cleared(Cleared(b)) == Cleared(b)
  {
    if NoFullRows(b) {
      KeptWhenNoneFull(b);
    }
    var m := Cleared(b);
    KeptWhenNoneFull(m);
  }

  /** If every full row lies in the window [lo, lo + k), there are at most k full rows. */
  lemma {:induction false} FullCountWindow(rows: seq<Row>, lo: int, k: nat)
    requires forall i :: 0 <= i < |rows| && IsFull(rows[i]) ==> lo <= i < lo + k
    ensures FullCount(rows) <= k
  {
    if rows != [] {
      var rest := rows[1..];
      if IsFull(rows[0]) {
        forall i | 0 <= i < |rest| && IsFull(rest[i]) ensures lo <= i < lo + k - 1 {
          assert rest[i] == rows[i + 1];
        }
        FullCountWindow(rest, lo, k - 1);
      } else {
        forall i | 0 <= i < |rest| && IsFull(rest[i]) ensures lo - 1 <= i < lo - 1 + k {
          assert rest[i] == rows[i + 1];
        }
        FullCountWindow(rest, lo - 1, k);
      }
    }
  }

  /** Locking a piece onto a board without full rows fills at most as many rows
      as the piece is tall; so with pieces at most 4 tall, the score table
      `[0, 100, 300, 500, 800]` is never indexed past its end. */
  lemma MergeFillsAtMostPieceHeight(b: Board, p: Piece)
    requires WellFormed(b) && NoFullRows(b)
    ensures FullCount(Merged(b, p)) <= |p.shape|
  {
    var m := Merged(b, p);
    forall r | 0 <= r < |m| && IsFull(m[r]) ensures p.y <= r < p.y + |p.shape| {
      assert !IsFull(b[r]);
      var c :| 0 <= c < Width && !b[r][c];
      assert m[r][c];
      assert Covers(p, r, c);
    }
    FullCountWindow(m, p.y, |p.shape|);
  }

  // ---------------------------------------------------------------------------
  // Scoring and gravity speed

  /** Points for clearing n rows at once: 0, 100, 300, 500 or 800 for 0
      to 4 rows. */
  function LineScore(n: nat): (points: nat)
    requires n <= 4
    ensures (points == 0) == (n == 0)
    ensures n > 1 ==> points > n * LineScore(1)
  {
    [0, 100, 300, 500, 800][n]
  }

  /** Milliseconds between automatic drops: 1000, less 50 for every
      thousand points scored, never below 100. */
  function DropInterval(score: nat): (ms: int)
    ensures 100 <= ms <= 1000
    ensures score < 1000 ==> ms == 1000
  {
    var slower := 1000 - (score / 1000) * 50;
    if slower < 100 then 100 else slower
  }

  /** A higher score never gives a slower fall. */
  lemma DropIntervalMonotone(s1: nat, s2: nat)
    requires s1 <= s2
    ensures DropInterval(s2) <= DropInterval(s1)
  {
  }

  // ---------------------------------------------------------------------------
  // Locking followed by clearing (the tail of moveDown and hardDrop)

  /** The board after locking p and removing the full rows. */
  function LockedBoard(b: Board, p: Piece): (m: Board)
    requires WellFormed(b)
    ensures WellFormed(m) && NoFullRows(m)
  {
    Cleared(Merged(b, p))
  }

  /** The points won by locking p onto a board without full rows. */
  function LockPoints(b: Board, p: Piece): (points: nat)
    requires WellFormed(b) && NoFullRows(b) && |p.shape| <= 4
    ensures points <= 800
    ensures (points == 0) == NoFullRows(Merged(b, p))
  {
    MergeFillsAtMostPieceHeight(b, p);
    LineScore(FullCount(Merged(b, p)))
  }

  // ---------------------------------------------------------------------------
  // Spawning (createNewPiece)

  /** A new piece of kind k: its base shape at (startX, 0). */
  function Spawn(k: Kind): (p: Piece)
    ensures p.kind == k && p.y == 0 && PieceShape(p.shape)
  {
    BaseShapesArePieceShapes(k);
    Piece(k, BaseShape(k), StartX(k), 0)
  }

  /** On an empty board a new piece always fits, so a fresh game does not start over. */
  lemma SpawnFitsEmptyBoard(k: Kind)
    ensures !Collides(EmptyBoard(), Spawn(k).shape, Spawn(k).x, Spawn(k).y)
  {
    var p := Spawn(k);
    CollidesIff(EmptyBoard(), p.shape, p.x, p.y);
    forall r, c | 0 <= r < |p.shape| && 0 <= c < |p.shape[r]| && p.shape[r][c]
      ensures !Blocked(EmptyBoard(), p.x + c, p.y + r)
    {
    }
  }
}
