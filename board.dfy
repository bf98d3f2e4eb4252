/**
 * The tic-tac-toe environment: a 3x3 board stored as nine integer cells
 * (0 empty, 1 for X, -1 for O) and the player to move. The queries are
 * stated first as functions on the cell sequence; the Board class runs
 * the Go code's loops and is proved against them. Modelled on `Board` in
 * neural/tictoctoe.go, package `neural` of go-sample-neural.
 */
module TicTacToe {

  const Empty := 0
  const PlayerX := 1
  const PlayerO := -1
  const BoardSize := 9

  /** Three cell positions that together win the game. */
  datatype Line = Line(a: nat, b: nat, c: nat)

  /** The winning lines in the order the Go code tests them: rows, columns, diagonals. */
  const WinLines: seq<Line> := [
    Line(0, 1, 2), Line(3, 4, 5), Line(6, 7, 8),
    Line(0, 3, 6), Line(1, 4, 7), Line(2, 5, 8),
    Line(0, 4, 8), Line(2, 4, 6)]

  predicate LineOwned(s: seq<int>, p: int, l: Line)
    requires |s| == BoardSize && l.a < BoardSize && l.b < BoardSize && l.c < BoardSize
  {
    s[l.a] == p && s[l.b] == p && s[l.c] == p
  }

  // The geometry of the board, independent of the table above.

  predicate RowOwned(s: seq<int>, p: int, r: int)
    requires |s| == BoardSize && 0 <= r < 3
  {
    s[3 * r] == p && s[3 * r + 1] == p && s[3 * r + 2] == p
  }

  predicate ColumnOwned(s: seq<int>, p: int, c: int)
    requires |s| == BoardSize && 0 <= c < 3
  {
    s[c] == p && s[c + 3] == p && s[c + 6] == p
  }

  predicate DiagonalOwned(s: seq<int>, p: int)
    requires |s| == BoardSize
  {
    s[0] == p && s[4] == p && s[8] == p
  }

  predicate AntiDiagonalOwned(s: seq<int>, p: int)
    requires |s| == BoardSize
  {
    s[2] == p && s[4] == p && s[6] == p
  }

  /** Player `p` holds a whole row, a whole column or a whole diagonal. */
  predicate Won(s: seq<int>, p: int)
    requires |s| == BoardSize
  {
    || (exists r | 0 <= r < 3 :: RowOwned(s, p, r))
    || (exists c | 0 <= c < 3 :: ColumnOwned(s, p, c))
    || DiagonalOwned(s, p)
    || AntiDiagonalOwned(s, p)
  }

  /** No cell is empty. */
  predicate Full(s: seq<int>)
  {
    forall i | 0 <= i < |s| :: s[i] != Empty
  }

  /** The positions of the empty cells, scanned from the first cell to the last. */
  function EmptyIndices(s: seq<int>): (e: seq<int>)
  {
    if s == [] then []
    else EmptyIndices(s[..|s| - 1]) + (if s[|s| - 1] == Empty then [|s| - 1] else [])
  }

  /** Every listed position is an empty cell of the board. */
  lemma {:induction false} EmptyIndicesSound(s: seq<int>)
    ensures forall k | 0 <= k < |EmptyIndices(s)| :: 0 <= EmptyIndices(s)[k] < |s| && s[EmptyIndices(s)[k]] == Empty
  {
    if s != [] {
      var n := |s| - 1;
      EmptyIndicesSound(s[..n]);
      assert forall i | 0 <= i < n :: s[..n][i] == s[i];
    }
  }

  /** Every empty cell is listed. */
  lemma {:induction false} EmptyIndicesComplete(s: seq<int>)
    ensures forall i | 0 <= i < |s| && s[i] == Empty :: i in EmptyIndices(s)
  {
    if s != [] {
      var n := |s| - 1;
      EmptyIndicesComplete(s[..n]);
      assert forall i | 0 <= i < n :: s[..n][i] == s[i];
    }
  }

  /** The positions come in strictly increasing order, below the length. */
  lemma {:induction false} EmptyIndicesIncreasing(s: seq<int>)
    ensures forall k | 0 <= k < |EmptyIndices(s)| :: 0 <= EmptyIndices(s)[k] < |s|
    ensures forall j, k | 0 <= j < k < |EmptyIndices(s)| :: EmptyIndices(s)[j] < EmptyIndices(s)[k]
  {
    if s != [] {
      EmptyIndicesIncreasing(s[..|s| - 1]);
    }
  }

  /**
   * The list holds exactly the empty positions, each once and in
   * increasing order; it is empty exactly when the board is full.
   */
  lemma {:induction false} EmptyIndicesExact(s: seq<int>)
    ensures forall k | 0 <= k < |EmptyIndices(s)| :: 0 <= EmptyIndices(s)[k] < |s| && s[EmptyIndices(s)[k]] == Empty
    ensures forall i | 0 <= i < |s| && s[i] == Empty :: i in EmptyIndices(s)
    ensures forall j, k | 0 <= j < k < |EmptyIndices(s)| :: EmptyIndices(s)[j] < EmptyIndices(s)[k]
    ensures EmptyIndices(s) == [] <==> Full(s)
  {
    EmptyIndicesSound(s);
    EmptyIndicesComplete(s);
    EmptyIndicesIncreasing(s);
    if EmptyIndices(s) != [] {
      assert s[EmptyIndices(s)[0]] == Empty;
    }
  }

  /** The network input for one cell, from the agent's point of view. */
  function CellValue(cell: int, agent: int): (v: real)
  {
    if cell == agent then 1.0 else if cell == -agent then -1.0 else 0.0
  }

  /** The whole board from the agent's point of view. */
  function StateVector(s: seq<int>, agent: int): (v: seq<real>)
    ensures |v| == |s|
  {
    seq(|s|, i requires 0 <= i < |s| => CellValue(s[i], agent))
  }

  /** The reward the Go code hands the agent playing `agent` after a move by `current`. */
  function Reward(s: seq<int>, current: int, agent: int): (r: real)
    requires |s| == BoardSize
  {
    if Won(s, current) then (if current == agent then 1.0 else -1.0)
    else if Full(s) then 0.0
    else -0.01
  }

  /** The table checked by CheckWin and the board's geometry agree. */
  lemma WinLinesAreTheGeometry(s: seq<int>, p: int)
    requires |s| == BoardSize
    ensures forall j | 0 <= j < |WinLines| ::
      WinLines[j].a < BoardSize && WinLines[j].b < BoardSize && WinLines[j].c < BoardSize
    ensures Won(s, p) <==> exists j | 0 <= j < |WinLines| :: LineOwned(s, p, WinLines[j])
  {
    if Won(s, p) {
      if r :| 0 <= r < 3 && RowOwned(s, p, r) {
        assert LineOwned(s, p, WinLines[r]);
      } else if c :| 0 <= c < 3 && ColumnOwned(s, p, c) {
        assert LineOwned(s, p, WinLines[3 + c]);
      } else if DiagonalOwned(s, p) {
        assert LineOwned(s, p, WinLines[6]);
      } else {
        assert LineOwned(s, p, WinLines[7]);
      }
    }
    if j :| 0 <= j < |WinLines| && LineOwned(s, p, WinLines[j]) {
      if j < 3 {
        assert RowOwned(s, p, j);
      } else if j < 6 {
        assert ColumnOwned(s, p, j - 3);
      }
    }
  }

  /** A legal move by anyone never undoes a win: the owned line has no empty cell. */
  lemma WinSurvivesMove(s: seq<int>, p: int, pos: int, q: int)
    requires |s| == BoardSize && p != Empty
    requires 0 <= pos < BoardSize && s[pos] == Empty
    requires Won(s, p)
    ensures Won(s[pos := q], p)
  {
    var t := s[pos := q];
    WinLinesAreTheGeometry(s, p);
    WinLinesAreTheGeometry(t, p);
    var j :| 0 <= j < |WinLines| && LineOwned(s, p, WinLines[j]);
    assert LineOwned(t, p, WinLines[j]);
  }

  /** Filling one empty cell removes exactly that position from the empty list. */
  lemma {:induction false} MoveRemovesOneEmptyCell(s: seq<int>, pos: int, q: int)
    requires 0 <= pos < |s| && s[pos] == Empty && q != Empty
    ensures |EmptyIndices(s[pos := q])| == |EmptyIndices(s)| - 1
  {
    var n := |s| - 1;
    var t := s[pos := q];
    var tail := if t[n] == Empty then [n] else [];
    assert EmptyIndices(t) == EmptyIndices(t[..n]) + tail;
    if pos == n {
      assert t[..n] == s[..n];
      assert EmptyIndices(s) == EmptyIndices(s[..n]) + [n];
    } else {
      assert t[..n] == s[..n][pos := q];
      assert EmptyIndices(s) == EmptyIndices(s[..n]) + tail;
      MoveRemovesOneEmptyCell(s[..n], pos, q);
    }
  }

  /** After filling an empty cell the empty positions are the old ones less that cell. */
  lemma MoveEmptyCellsExact(s: seq<int>, pos: int, q: int, i: int)
    requires 0 <= pos < |s| && s[pos] == Empty && q != Empty
    ensures i in EmptyIndices(s[pos := q]) <==> i in EmptyIndices(s) && i != pos
  {
    var t := s[pos := q];
    EmptyIndicesExact(s);
    EmptyIndicesExact(t);
    if i in EmptyIndices(t) {
      var k :| 0 <= k < |EmptyIndices(t)| && EmptyIndices(t)[k] == i;
    }
    if i in EmptyIndices(s) && i != pos {
      var k :| 0 <= k < |EmptyIndices(s)| && EmptyIndices(s)[k] == i;
      assert t[i] == Empty;
    }
  }

  /** Each entry is 1, -1 or 0, and it is 1 exactly on the agent's own cells. */
  lemma StateVectorValues(s: seq<int>, agent: int, i: int)
    requires 0 <= i < |s|
    ensures StateVector(s, agent)[i] in {1.0, -1.0, 0.0}
    ensures StateVector(s, agent)[i] == 1.0 <==> s[i] == agent
    ensures StateVector(s, agent)[i] == -1.0 <==> s[i] == -agent && s[i] != agent
    ensures StateVector(s, agent)[i] == 0.0 <==> s[i] != agent && s[i] != -agent
  {
  }

  /** The opponent sees the board with every sign flipped. */
  lemma OpponentSeesNegation(s: seq<int>, agent: int)
    requires agent != Empty
    ensures forall i | 0 <= i < |s| :: StateVector(s, -agent)[i] == -StateVector(s, agent)[i]
  {
  }

  /**
   * The four rewards and the situations that produce them; a win is
   * worth as much to the winner as it costs the other side.
   */
  lemma RewardOutcomes(s: seq<int>, current: int, agent: int)
    requires |s| == BoardSize
    ensures Reward(s, current, agent) == 1.0 <==> Won(s, current) && current == agent
    ensures Reward(s, current, agent) == -1.0 <==> Won(s, current) && current != agent
    ensures Reward(s, current, agent) == 0.0 <==> !Won(s, current) && Full(s)
    ensures Reward(s, current, agent) == -0.01 <==> !Won(s, current) && !Full(s)
    ensures current != 0 && Won(s, current) ==> Reward(s, current, current) == -Reward(s, current, -current)
  {
  }

  /** The game board. `cells` is the Go code's fixed [9]int array. */
  class Board {
    var cells: array<int>
    var currentPlayer: int

    /** Nine cells, each empty, X or O, and X or O to move. */
    ghost predicate Valid()
      reads this, cells
    {
      && cells.Length == BoardSize
      && currentPlayer in {PlayerX, PlayerO}
      && forall i | 0 <= i < BoardSize :: cells[i] in {Empty, PlayerX, PlayerO}
    }

    /** An empty board with X to move. */
    constructor ()
      ensures Valid() && fresh(cells)
      ensures forall i | 0 <= i < BoardSize :: cells[i] == Empty
      ensures currentPlayer == PlayerX
    {
      cells := new int[BoardSize](_ => Empty);
      currentPlayer := PlayerX;
    }

    /** Places the current player's mark at `pos` if that is an empty cell on the board. */
    method MakeMove(pos: int) returns (ok: bool)
      requires Valid()
      modifies cells
      ensures ok <==> 0 <= pos < BoardSize && old(cells[pos]) == Empty
      ensures cells[..] == if ok then old(cells[..])[pos := currentPlayer] else old(cells[..])
      ensures Valid()
      ensures ok ==> |EmptyIndices(cells[..])| == |EmptyIndices(old(cells[..]))| - 1
    {
      if pos < 0 || pos >= BoardSize || cells[pos] != Empty {
        return false;
      }
      MoveRemovesOneEmptyCell(cells[..], pos, currentPlayer);
      cells[pos] := currentPlayer;
      return true;
    }

    /** Whether the player to move holds one of the eight winning lines. */
    method CheckWin() returns (won: bool)
      requires Valid()
      ensures won == Won(cells[..], currentPlayer)
    {
      WinLinesAreTheGeometry(cells[..], currentPlayer);
      for i := 0 to |WinLines|
        invariant forall j | 0 <= j < i :: !LineOwned(cells[..], currentPlayer, WinLines[j])
      {
        var line := WinLines[i];
        if cells[line.a] == currentPlayer && cells[line.b] == currentPlayer && cells[line.c] == currentPlayer {
          assert LineOwned(cells[..], currentPlayer, WinLines[i]);
          return true;
        }
      }
      return false;
    }

    /** Whether no cell is empty. */
    method IsBoardFull() returns (full: bool)
      requires Valid()
      ensures full == Full(cells[..])
    {
      for i := 0 to BoardSize
        invariant forall j | 0 <= j < i :: cells[j] != Empty
      {
        if cells[i] == Empty {
          return false;
        }
      }
      return true;
    }

    /** The game is over once the player to move has won or the board is full. */
    method IsGameOver() returns (over: bool)
      requires Valid()
      ensures over == (Won(cells[..], currentPlayer) || Full(cells[..]))
      ensures !over ==> |EmptyIndices(cells[..])| > 0
    {
      EmptyIndicesExact(cells[..]);
      over := CheckWin();
      if !over {
        over := IsBoardFull();
      }
    }

    /** The reward for `agentPlayer`: win 1, loss -1, draw 0, any other step -0.01. */
    method GetReward(agentPlayer: int) returns (r: real)
      requires Valid()
      ensures r == Reward(cells[..], currentPlayer, agentPlayer)
      ensures r == 1.0 <==> Won(cells[..], currentPlayer) && currentPlayer == agentPlayer
      ensures r == -1.0 <==> Won(cells[..], currentPlayer) && currentPlayer != agentPlayer
      ensures r == 0.0 <==> !Won(cells[..], currentPlayer) && Full(cells[..])
      ensures r == -0.01 <==> !Won(cells[..], currentPlayer) && !Full(cells[..])
    {
      RewardOutcomes(cells[..], currentPlayer, agentPlayer);
      var won := CheckWin();
      if won {
        if currentPlayer == agentPlayer {
          return 1.0;
        } else {
          return -1.0;
        }
      }
      var full := IsBoardFull();
      if full {
        return 0.0;
      }
      return -0.01;
    }

    /** The nine network inputs: 1 for the agent's cells, -1 for the opponent's, 0 otherwise. */
    method GetStateVector(agentPlayer: int) returns (state: seq<real>)
      requires Valid()
      ensures state == StateVector(cells[..], agentPlayer)
      ensures |state| == BoardSize
      ensures forall i | 0 <= i < BoardSize :: state[i] == 1.0 <==> cells[i] == agentPlayer
      ensures forall i | 0 <= i < BoardSize :: state[i] == -1.0 <==> cells[i] == -agentPlayer && cells[i] != agentPlayer
      ensures forall i | 0 <= i < BoardSize :: state[i] == 0.0 <==> cells[i] != agentPlayer && cells[i] != -agentPlayer
      ensures agentPlayer in {PlayerX, PlayerO} ==> forall i | 0 <= i < BoardSize :: state[i] == 0.0 <==> cells[i] == Empty
    {
      var v := new real[BoardSize];
      for i := 0 to BoardSize
        invariant forall j | 0 <= j < i :: v[j] == CellValue(cells[j], agentPlayer)
      {
        var cell := cells[i];
        if cell == agentPlayer {
          v[i] := 1.0;
        } else if cell == -agentPlayer {
          v[i] := -1.0;
        } else {
          v[i] := 0.0;
        }
      }
      state := v[..];
    }

    /** The empty positions, in increasing order. */
    method GetEmptyCells() returns (emptyCells: seq<int>)
      requires Valid()
      ensures emptyCells == EmptyIndices(cells[..])
      ensures forall k | 0 <= k < |emptyCells| :: 0 <= emptyCells[k] < BoardSize && cells[emptyCells[k]] == Empty
      ensures forall i | 0 <= i < BoardSize && cells[i] == Empty :: i in emptyCells
      ensures forall j, k | 0 <= j < k < |emptyCells| :: emptyCells[j] < emptyCells[k]
      ensures emptyCells == [] <==> Full(cells[..])
    {
      emptyCells := [];
      for i := 0 to BoardSize
        invariant emptyCells == EmptyIndices(cells[..i])
      {
        assert cells[..i + 1][..i] == cells[..i];
        if cells[i] == Empty {
          emptyCells := emptyCells + [i];
        }
      }
      assert cells[..BoardSize] == cells[..];
      EmptyIndicesExact(cells[..]);
    }

    /** Passes the turn: X becomes O and O becomes X; the cells stay as they are. */
    method SwitchPlayer()
      requires Valid()
      modifies this
      ensures Valid() && cells == old(cells)
      ensures currentPlayer == -old(currentPlayer)
      ensures old(currentPlayer) == PlayerX ==> currentPlayer == PlayerO
      ensures old(currentPlayer) == PlayerO ==> currentPlayer == PlayerX
    {
      currentPlayer := -currentPlayer;
    }
  }
}
