/** The state the MinesweeperScreen composable remembers, held in place: the
    mine locations, the revealed buttons and the game status, with the reset
    and click handlers that reassign them. Each handler is proved against the
    value-level functions of module Game. */
module Screen {
  import opened Game

  class Minesweeper {
    var mines: set<int>
    var revealed: set<int>
    var status: Status

    /** The current values of the three variables. */
    function Snapshot(): State
      reads this
    {
      State(mines, revealed, status)
    }

    /** The invariant every handler keeps. */
    ghost predicate Valid()
      reads this
    {
      Reachable(Snapshot())
    }

    /** The screen starts with no mines, nothing revealed and "Playing", and
        resets once when it is first composed; `shuffled` is the ordering of
        the board that the shuffle produced. */
    constructor (shuffled: seq<int>)
      requires IsShuffleOfCells(shuffled)
      ensures Valid()
      ensures mines == Draw(shuffled) && revealed == {} && status == Playing
    {
      mines := {};
      revealed := {};
      status := Playing;
      new;
      Reset(shuffled);
    }

    /** Play again: a fresh draw of BombCount mines, nothing revealed, playing. */
    method Reset(shuffled: seq<int>)
      requires IsShuffleOfCells(shuffled)
      modifies this
      ensures Valid()
      ensures mines == Draw(shuffled)
      ensures |mines| == BombCount && mines <= Cells()
      ensures revealed == {} && status == Playing
    {
      mines := Draw(shuffled);
      revealed := {};
      status := Playing;
      FreshIsReachable(mines);
    }

    /** A click on button `index`. Ignored after the game has ended and on a
        revealed button; otherwise the button is revealed, a mine loses, and
        the last safe cell wins. The mines never change. */
    method Click(index: int)
      requires Valid()
      requires 0 <= index < GridSize
      modifies this
      ensures Valid()
      ensures Snapshot() == Step(old(Snapshot()), index)
      ensures mines == old(mines) && old(revealed) <= revealed
      ensures old(status) != Playing || index in old(revealed) ==>
                revealed == old(revealed) && status == old(status)
      ensures old(status) == Playing && index !in old(revealed) ==>
                revealed == old(revealed) + {index}
      ensures old(status) == Playing && index !in old(revealed) && index in mines ==>
                status == Lost
      ensures old(status) == Playing && index !in old(revealed) && index !in mines ==>
                (status == Won <==> SafeCells(mines) <= revealed) &&
                (status == Won || status == Playing)
    {
      ghost var before := Snapshot();
      if status == Playing && index !in revealed {
        var newRevealed := revealed + {index};
        if index in mines {
          status := Lost;
          revealed := newRevealed;
        } else {
          revealed := newRevealed;
          var nonBombCells := Cells() - mines;
          if nonBombCells <= newRevealed {
            status := Won;
          }
        }
      }
      StepPreservesReachable(before, index);
    }
  }
}
