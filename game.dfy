/** The game-state engine of the single-screen Minesweeper: the state kept by the
    MinesweeperScreen composable, the reveal transition run by a button's click
    handler, and the properties every reachable state has. Everything here is a
    value; the class in module Screen updates the same state in place and is
    proved against these functions. */
module Game {

  /** Number of cells (the grid is 3 x 3) and number of mines per game. */
  const GridSize: int := 9
  const BombCount: int := 2

  datatype Status = Playing | Lost | Won

  /** One snapshot of the three remembered variables: the mine locations, the
      revealed buttons and the game status. */
  datatype State = State(mines: set<int>, revealed: set<int>, status: Status)

  /** The indices of the buttons on the board, 0 until GridSize, as a set. */
  function Cells(): (cells: set<int>)
    ensures forall i :: i in cells <==> 0 <= i < GridSize
  {
    {0, 1, 2, 3, 4, 5, 6, 7, 8}
  }

  /** The cells that are not mines: the ones a player must reveal to win. */
  function SafeCells(mines: set<int>): set<int> {
    Cells() - mines
  }

  /** `shuffled` is an ordering of the cells 0 until GridSize: every cell
      occurs in it, exactly once, and nothing else does. */
  predicate IsShuffleOfCells(shuffled: seq<int>) {
    && (forall i, j :: 0 <= i < j < |shuffled| ==> shuffled[i] != shuffled[j])
    && (forall x :: x in shuffled ==> 0 <= x < GridSize)
    && (forall x :: 0 <= x < GridSize ==> x in shuffled)
  }

  /** The mine set drawn by reset: the first BombCount cells of a shuffled
      ordering of the board, as a set. Whatever the shuffle, the result is a
      set of exactly BombCount distinct cells. */
  function Draw(shuffled: seq<int>): (mines: set<int>)
    requires IsShuffleOfCells(shuffled)
    ensures |mines| == BombCount
    ensures mines <= Cells()
  {
    assert |shuffled| >= BombCount by {
      assert 0 in shuffled && 1 in shuffled;
      var i :| 0 <= i < |shuffled| && shuffled[i] == 0;
      var j :| 0 <= j < |shuffled| && shuffled[j] == 1;
      assert i != j;
    }
    var taken := shuffled[..BombCount];
    var mines := set x | x in taken;
    assert mines == {taken[0], taken[1]};
    assert taken[0] != taken[1];
    assert |mines| == BombCount;
    assert taken[0] in shuffled && taken[1] in shuffled;
    mines
  }

  /** The state right after reset: fresh mines, nothing revealed, playing. */
  function Fresh(mines: set<int>): State {
    State(mines, {}, Playing)
  }

  /** One click on the button with the given index. The click is ignored unless
      the game is being played and the button is still hidden; otherwise the
      index is revealed, a mine loses the game, and revealing the last safe
      cell wins it. */
  function Step(g: State, index: int): (r: State)
    ensures r.mines == g.mines
    ensures g.revealed <= r.revealed && r.revealed <= g.revealed + {index}
    ensures g.status != Playing ==> r == g
    ensures r.status == Lost && g.status != Lost ==> index in g.mines
    ensures r.status == Won && g.status != Won ==> index !in g.mines
  {
    if g.status == Playing && index !in g.revealed then
      var newRevealed := g.revealed + {index};
      if index in g.mines then
        State(g.mines, newRevealed, Lost)
      else
        var nonBombCells := Cells() - g.mines;
        State(g.mines, newRevealed, if nonBombCells <= newRevealed then Won else Playing)
    else
      g
  }

  /** A sequence of clicks, applied one after the other. */
  function Run(g: State, clicks: seq<int>): State
    decreases |clicks|
  {
    if clicks == [] then g else Run(Step(g, clicks[0]), clicks[1..])
  }

  /** The status a board must have given its mines and revealed cells: lost once
      a mine is revealed, won once every safe cell is, playing otherwise. */
  function Verdict(mines: set<int>, revealed: set<int>): Status {
    if revealed * mines != {} then Lost
    else if SafeCells(mines) <= revealed then Won
    else Playing
  }

  /** What holds of every state reachable by reset and clicks on the board. */
  predicate Reachable(g: State) {
    && g.mines <= Cells()
    && |g.mines| == BombCount
    && g.revealed <= Cells()
    && |g.revealed * g.mines| <= 1
    && g.status == Verdict(g.mines, g.revealed)
  }

  /** All clicks are on buttons of the board. */
  predicate OnBoard(clicks: seq<int>) {
    forall k :: 0 <= k < |clicks| ==> 0 <= clicks[k] < GridSize
  }

  // ----- reset -----

  /** A set of two cells misses at least one of the cells 0, 1 and 2. */
  lemma {:induction false} SomeSmallCellMissed(mines: set<int>)
    requires |mines| == BombCount
    ensures exists c :: 0 <= c < 3 && c !in mines
  {
    if forall c :: 0 <= c < 3 ==> c in mines {
      assert {0, 1, 2} <= mines;
      assert |{0, 1, 2}| == 3;
      SubsetCard({0, 1, 2}, mines);
    }
  }

  lemma {:induction false} SubsetCard(a: set<int>, b: set<int>)
    requires a <= b
    ensures |a| <= |b|
  {
    assert b == a + (b - a);
  }

  /** Every reset starts a game that is reachable and not yet decided. */
  lemma {:induction false} FreshIsReachable(mines: set<int>)
    requires |mines| == BombCount && mines <= Cells()
    ensures Reachable(Fresh(mines))
    ensures SafeCells(mines) != {}
  {
    SomeSmallCellMissed(mines);
    var c :| 0 <= c < 3 && c !in mines;
    assert c in SafeCells(mines);
    assert !(SafeCells(mines) <= {});
  }

  /** Every set of BombCount cells is a possible draw: some shuffle of the
      board puts exactly those cells first. */
  lemma {:induction false} DrawCovers(mines: set<int>)
    requires |mines| == BombCount && mines <= Cells()
    ensures exists shuffled :: IsShuffleOfCells(shuffled) && Draw(shuffled) == mines
  {
    var a, b := TwoElements(mines);
    var shuffled := [a, b] + CellsExcept(GridSize, a, b);
    ShuffleStartingWith(a, b);
    assert shuffled[..BombCount] == [a, b];
    assert Draw(shuffled) == mines;
  }

  /** A set of two cells is a pair of distinct cells. */
  lemma {:induction false} TwoElements(s: set<int>) returns (a: int, b: int)
    requires |s| == 2 && s <= Cells()
    ensures a != b && s == {a, b}
  {
    a := PickCell(s);
    assert s == (s - {a}) + {a};
    b := PickCell(s - {a});
    var rest := s - {a, b};
    assert s == {a, b} + rest && {a, b} * rest == {};
    assert |rest| == 0;
  }

  /** A set of one cell is that cell as a singleton. */
  lemma {:induction false} OneElement(s: set<int>) returns (a: int)
    requires |s| == 1 && s <= Cells()
    ensures s == {a}
  {
    a := PickCell(s);
    var rest := s - {a};
    assert s == {a} + rest && {a} * rest == {};
    assert |rest| == 0;
  }

  /** Some element of a non-empty set of cells. */
  lemma PickCell(s: set<int>) returns (x: int)
    requires s <= Cells() && s != {}
    ensures x in s
  {
    assert Cells() == Below(GridSize);
    x := PickBelow(s, GridSize);
  }

  /** The integers 0 until n, as a set. */
  function Below(n: nat): set<int> {
    if n == 0 then {} else Below(n - 1) + {n - 1}
  }

  lemma {:induction false} PickBelow(s: set<int>, n: nat) returns (x: int)
    requires s <= Below(n) && s != {}
    ensures x in s
  {
    if n == 0 {
      assert false;
    } else if n - 1 in s {
      x := n - 1;
    } else {
      x := PickBelow(s, n - 1);
    }
  }

  /** Putting two distinct cells first and the others after them in increasing
      order gives a shuffle of the board. */
  lemma {:induction false} ShuffleStartingWith(a: int, b: int)
    requires a != b && 0 <= a < GridSize && 0 <= b < GridSize
    ensures IsShuffleOfCells([a, b] + CellsExcept(GridSize, a, b))
  {
    var rest := CellsExcept(GridSize, a, b);
    CellsExceptProperties(GridSize, a, b);
    var shuffled := [a, b] + rest;
    forall x ensures x in shuffled <==> 0 <= x < GridSize {
      assert x in shuffled <==> x == a || x == b || x in rest;
    }
    forall i, j | 0 <= i < j < |shuffled| ensures shuffled[i] != shuffled[j] {
      if 2 <= i {
        assert shuffled[i] == rest[i - 2] && shuffled[j] == rest[j - 2];
      } else if 2 <= j {
        assert shuffled[j] == rest[j - 2];
        assert shuffled[j] in rest;
      }
    }
  }

  /** The cells 0 until n other than a and b, in increasing order. */
  function CellsExcept(n: nat, a: int, b: int): seq<int> {
    if n == 0 then []
    else CellsExcept(n - 1, a, b) + (if n - 1 == a || n - 1 == b then [] else [n - 1])
  }

  lemma {:induction false} CellsExceptProperties(n: nat, a: int, b: int)
    ensures forall x :: x in CellsExcept(n, a, b) <==> 0 <= x < n && x != a && x != b
    ensures forall i, j :: 0 <= i < j < |CellsExcept(n, a, b)| ==>
              CellsExcept(n, a, b)[i] < CellsExcept(n, a, b)[j]
  {
    if n > 0 {
      CellsExceptProperties(n - 1, a, b);
      var s, t := CellsExcept(n - 1, a, b), CellsExcept(n, a, b);
      forall i, j | 0 <= i < j < |t| ensures t[i] < t[j] {
        if j == |s| {
          assert t[i] == s[i] && s[i] in s;
        }
      }
    }
  }

  // ----- clicks -----

  /** One click keeps a reachable state reachable. */
  lemma {:induction false} StepPreservesReachable(g: State, index: int)
    requires Reachable(g)
    requires 0 <= index < GridSize
    ensures Reachable(Step(g, index))
  {
    if g.status == Playing && index !in g.revealed {
      var r := g.revealed + {index};
      assert g.revealed * g.mines == {};
      if index in g.mines {
        assert r * g.mines == {index};
      } else {
        assert r * g.mines == {};
      }
    }
  }

  /** Any sequence of clicks on the board keeps a reachable state reachable. */
  lemma {:induction false} RunPreservesReachable(g: State, clicks: seq<int>)
    requires Reachable(g)
    requires OnBoard(clicks)
    ensures Reachable(Run(g, clicks))
    decreases |clicks|
  {
    if clicks != [] {
      StepPreservesReachable(g, clicks[0]);
      RunPreservesReachable(Step(g, clicks[0]), clicks[1..]);
    }
  }

  /** What the invariant says in terms of revealed mines: while playing and after
      a win no mine is revealed, after a loss exactly one is, and a game is won
      exactly when every safe cell is revealed and no mine is. */
  lemma RevealedMines(g: State)
    requires Reachable(g)
    ensures g.status != Lost ==> g.revealed * g.mines == {}
    ensures g.status == Lost ==> |g.revealed * g.mines| == 1
    ensures g.status == Won <==> SafeCells(g.mines) <= g.revealed && g.revealed * g.mines == {}
    ensures g.status == Won <==> g.revealed == SafeCells(g.mines)
  {
    if g.status == Won {
      forall x | x in g.revealed ensures x in SafeCells(g.mines) {
        assert x !in g.revealed * g.mines;
      }
    }
    if g.revealed == SafeCells(g.mines) {
      assert g.revealed * g.mines == {};
    }
  }

  /** Clicks never move the mines, never hide a revealed cell, and reveal
      nothing but the clicked cells. */
  lemma {:induction false} RunMonotone(g: State, clicks: seq<int>)
    ensures Run(g, clicks).mines == g.mines
    ensures g.revealed <= Run(g, clicks).revealed
    ensures Run(g, clicks).revealed <= g.revealed + set k | 0 <= k < |clicks| :: clicks[k]
    decreases |clicks|
  {
    if clicks != [] {
      var g' := Step(g, clicks[0]);
      RunMonotone(g', clicks[1..]);
      var tail := set k | 0 <= k < |clicks[1..]| :: clicks[1..][k];
      var all := set k | 0 <= k < |clicks| :: clicks[k];
      forall x | x in tail ensures x in all {
        var k :| 0 <= k < |clicks[1..]| && clicks[1..][k] == x;
        assert clicks[k + 1] == x;
      }
      assert clicks[0] in all;
    }
  }

  /** A lost or won game is frozen: no click changes anything. */
  lemma {:induction false} RunFrozen(g: State, clicks: seq<int>)
    requires g.status != Playing
    ensures Run(g, clicks) == g
    decreases |clicks|
  {
    if clicks != [] {
      RunFrozen(Step(g, clicks[0]), clicks[1..]);
    }
  }

  /** Clicking the same button twice in a row has the effect of one click. */
  lemma StepIdempotent(g: State, index: int)
    ensures Step(Step(g, index), index) == Step(g, index)
  {
  }

  /** Revealing a mine loses at once, and that mine is the only revealed one. */
  lemma {:induction false} MineLoses(g: State, index: int)
    requires Reachable(g) && g.status == Playing
    requires index in g.mines
    ensures Step(g, index).status == Lost
    ensures Step(g, index).revealed * g.mines == {index}
  {
    assert g.revealed * g.mines == {};
    assert index !in g.revealed * g.mines;
  }

  /** Clicking, in any order and with any repetitions, cells that are all safe
      and that together with the cells already revealed cover every safe cell
      wins a game that is not lost. */
  lemma {:induction false} SafeClicksWin(g: State, clicks: seq<int>)
    requires Reachable(g) && g.status != Lost
    requires forall k :: 0 <= k < |clicks| ==> 0 <= clicks[k] < GridSize && clicks[k] !in g.mines
    requires SafeCells(g.mines) <= g.revealed + set k | 0 <= k < |clicks| :: clicks[k]
    ensures Run(g, clicks).status == Won
    decreases |clicks|
  {
    if clicks == [] {
      assert g.revealed * g.mines == {};
    } else {
      var g' := Step(g, clicks[0]);
      StepPreservesReachable(g, clicks[0]);
      var tail := set k | 0 <= k < |clicks[1..]| :: clicks[1..][k];
      forall x | x in SafeCells(g.mines) ensures x in g'.revealed + tail {
        if x != clicks[0] && x !in g.revealed && g.status == Playing {
          var k :| 0 <= k < |clicks| && clicks[k] == x;
          assert clicks[1..][k - 1] == x;
        }
      }
      SafeClicksWin(g', clicks[1..]);
    }
  }

  // ----- two example games -----

  /** Mines {2, 5}: revealing 0 and 1 keeps playing, 2 loses, and a further
      click on 3 changes nothing. */
  lemma ScenarioLoss()
    ensures Run(Fresh({2, 5}), [0, 1]) == State({2, 5}, {0, 1}, Playing)
    ensures Run(Fresh({2, 5}), [0, 1, 2]) == State({2, 5}, {0, 1, 2}, Lost)
    ensures Run(Fresh({2, 5}), [0, 1, 2, 3]) == State({2, 5}, {0, 1, 2}, Lost)
  {
    var g1 := Step(Fresh({2, 5}), 0);
    assert 8 in SafeCells({2, 5}) && 8 !in {0};
    assert g1 == State({2, 5}, {0}, Playing);
    var g2 := Step(g1, 1);
    assert 8 !in {0, 1};
    assert g2 == State({2, 5}, {0, 1}, Playing);
    assert Run(Fresh({2, 5}), [0, 1]) == Run(g2, []);
    assert Run(Fresh({2, 5}), [0, 1, 2]) == Run(g2, [2]);
    assert Run(Fresh({2, 5}), [0, 1, 2, 3]) == Run(g2, [2, 3]);
  }

  /** Mines {2, 5}: revealing the seven safe cells, in any order, wins. */
  lemma ScenarioWin(clicks: seq<int>)
    requires forall k :: 0 <= k < |clicks| ==> clicks[k] in {0, 1, 3, 4, 6, 7, 8}
    requires forall c :: c in {0, 1, 3, 4, 6, 7, 8} ==> c in clicks
    ensures Run(Fresh({2, 5}), clicks).status == Won
  {
    FreshIsReachable({2, 5});
    ScenarioSafeCells();
    var clicked := set k | 0 <= k < |clicks| :: clicks[k];
    forall x | x in {0, 1, 3, 4, 6, 7, 8} ensures x in clicked {
      assert x in clicks;
      var k :| 0 <= k < |clicks| && clicks[k] == x;
    }
    SafeClicksWin(Fresh({2, 5}), clicks);
  }

  lemma ScenarioSafeCells()
    ensures SafeCells({2, 5}) == {0, 1, 3, 4, 6, 7, 8}
  {
  }
}
