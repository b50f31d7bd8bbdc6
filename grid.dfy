/** How the board draws each button: the appearance chosen from whether the
    cell is revealed, whether it is a mine and whether the game is over, the
    emoji it shows, and whether the button accepts clicks. */
module Grid {
  import opened Game

  /** The kinds of appearance a button can have (colours left aside). */
  datatype Appearance =
    | Hidden          // not revealed, game in progress
    | SafeRevealed    // revealed, not a mine: a diamond
    | BombRevealed    // revealed mine: the one that lost the game
    | BombShown       // unrevealed mine, shown once the game is over
    | HiddenAfterEnd  // unrevealed safe cell once the game is over

  const Bomb: string := "\U{1F4A3}"
  const Diamond: string := "\U{1F48E}"

  /** The appearance of one button. A revealed button shows what it hides; an
      unrevealed one shows a bomb only once the game is over and only if it is
      a mine; during play an unrevealed button is plain. */
  function CellView(isRevealed: bool, isBomb: bool, isGameOver: bool): (a: Appearance)
    ensures (a == SafeRevealed || a == BombRevealed) <==> isRevealed
    ensures (a == BombRevealed || a == BombShown) <==> isBomb && (isRevealed || isGameOver)
    ensures a == Hidden <==> !isRevealed && !isGameOver
    ensures a == HiddenAfterEnd <==> !isRevealed && !isBomb && isGameOver
  {
    if isRevealed then
      if isBomb then BombRevealed else SafeRevealed
    else if isGameOver then
      if isBomb then BombShown else HiddenAfterEnd
    else
      Hidden
  }

  /** The text drawn on a button of the given appearance: a bomb on either
      kind of mine, a diamond on a revealed safe cell, nothing on the rest. */
  function Label(a: Appearance): (text: string)
    ensures text == Bomb <==> a == BombRevealed || a == BombShown
    ensures text == Diamond <==> a == SafeRevealed
    ensures text == "" <==> a == Hidden || a == HiddenAfterEnd
  {
    match a
    case SafeRevealed => Diamond
    case BombRevealed | BombShown => Bomb
    case Hidden | HiddenAfterEnd => ""
  }

  /** A button takes clicks only while hidden and while the game is played:
      exactly the buttons drawn plainly hidden, mine or not. */
  function Enabled(isRevealed: bool, isGameOver: bool): (enabled: bool)
    ensures enabled <==> CellView(isRevealed, true, isGameOver) == Hidden
    ensures enabled <==> CellView(isRevealed, false, isGameOver) == Hidden
  {
    !isRevealed && !isGameOver
  }

  /** The appearance of button `index` in state `g`. */
  function ViewAt(g: State, index: int): Appearance {
    CellView(index in g.revealed, index in g.mines, g.status != Playing)
  }

  /** Whether button `index` is enabled in state `g`. */
  function EnabledAt(g: State, index: int): bool {
    Enabled(index in g.revealed, g.status != Playing)
  }

  /** The emoji on a button: a bomb exactly on a mine that is revealed or
      whose game is over, a diamond exactly on a revealed safe cell, and
      nothing otherwise. */
  lemma LabelMeaning(isRevealed: bool, isBomb: bool, isGameOver: bool)
    ensures (Label(CellView(isRevealed, isBomb, isGameOver)) == Bomb) ==
            (isBomb && (isRevealed || isGameOver))
    ensures (Label(CellView(isRevealed, isBomb, isGameOver)) == Diamond) ==
            (isRevealed && !isBomb)
    ensures (Label(CellView(isRevealed, isBomb, isGameOver)) == "") ==
            (!isRevealed && !(isBomb && isGameOver))
  {
  }

  /** A button is enabled exactly when clicking it changes the game: disabled
      buttons (revealed ones, and all of them once the game is over) never
      reach the click handler with any effect. */
  lemma {:induction false} EnabledIffClickTakesEffect(g: State, index: int)
    ensures EnabledAt(g, index) <==> Step(g, index) != g
  {
    if EnabledAt(g, index) {
      assert index in Step(g, index).revealed;
    }
  }

  /** While the game is played no button shows a bomb: the mines do not leak. */
  lemma {:induction false} NoBombWhilePlaying(g: State, index: int)
    requires Reachable(g) && g.status == Playing
    ensures ViewAt(g, index) == Hidden || ViewAt(g, index) == SafeRevealed
    ensures Label(ViewAt(g, index)) != Bomb
  {
    assert index !in g.revealed * g.mines by {
      RevealedMines(g);
    }
  }

  /** After a loss every mine shows a bomb, and exactly one button, the mine
      that was clicked, is drawn as a revealed bomb. */
  lemma {:induction false} LostView(g: State) returns (m: int)
    requires Reachable(g) && g.status == Lost
    ensures forall i :: i in g.mines ==> Label(ViewAt(g, i)) == Bomb
    ensures m in g.mines && forall i :: ViewAt(g, i) == BombRevealed <==> i == m
  {
    RevealedMines(g);
    m := OneElement(g.revealed * g.mines);
    forall i ensures ViewAt(g, i) == BombRevealed <==> i == m {
      assert ViewAt(g, i) == BombRevealed <==> i in g.revealed * g.mines;
    }
  }

  /** After a win every safe button shows a diamond and every mine a bomb. */
  lemma {:induction false} WonView(g: State, index: int)
    requires Reachable(g) && g.status == Won
    requires 0 <= index < GridSize
    ensures ViewAt(g, index) == if index in g.mines then BombShown else SafeRevealed
  {
    RevealedMines(g);
    if index !in g.mines {
      assert index in SafeCells(g.mines);
    } else {
      assert index !in g.revealed * g.mines;
    }
  }
}
