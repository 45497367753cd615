# Sudoku engine core in Dafny

A model of the core of a command-line Sudoku game written in C. Its board has N x N cells,
made of blocks of `blockH` rows by `blockW` columns, with N = blockH * blockW. The game keeps:

- one global game record: the board, a fill counter, a mode and a doubly linked list of moves;
- for every cell: a fixed mark, an error flag, a value and a scratch value called the
  demi-value.

The model covers:

- the board geometry;
- the incremental maintenance of the error flags;
- the move list with single-move and batched undo/redo;
- the backtracking solution counter;
- autofill;
- the puzzle generator;
- the small automaton that parses the argument of `mark_errors`.

The game record is an immutable datatype (`Board.Game`). The move list is a sequence whose
element 0 is the sentinel, plus a cursor index. Every command is a method from a game to a
game. The C functions that read or write the global game take it as a parameter here.

Modules, in dependency order:

- `Wrappers`: the `Option` type.
- `Geometry`: the block shape, cell index to (col, row) and back, the peer relation, and the
  column/row/block visiting order the C loops share (`Scan`).
- `Board`: cells, moves, the game record, the duplicate relation that the error flags cache
  (`HasDup`, `Consistent`), the fill counter (`CountFilled`), `nextEmptyCell`, `isErroneous`
  and the demi-value helpers.
- `Constraints`: `checkIfError` and `isErrorUpdate`, and the cell-reading loop of load/edit.
- `History`: the move list.
  - `Rewind`/`Advance` replay it.
  - `BackOk`/`FwdOk` tie it to the board.
  - `Coherent` and `WF` are the invariants every command keeps.
  - The list functions (`addMove`, `clearNextMoves`) and `undoAny`/`redoAny`/`setCell`.
- `Commands`: `createGame`, `set`, `undo`, `redo`, `reset`, and the refusal checks of
  `validate` and `hint`.
  - The ILP solver is a function parameter.
  - `UndoBatch`, `RedoBatch` and `ResetSpec` are the reference definitions of what the
    commands do.
- `Search`: `numSolutions` with its explicit stack, `push`/`pop` and `isDemiValid`. `Count`
  is the reference search tree.
- `Solutions`: the solutions of a board defined without search. It proves that the counter
  counts exactly the completions of a board.
- `Autofill`: `getCellSingleValue` and `autofill`, including the undo batch it leaves.
- `Generator`: `tryGenerate` and `generate`.
  - The random numbers are a finite input stream.
  - The solver is a parameter.
- `MarkErrors`: `parseMarkErrorInput`.

The main invariant is `History.WF`. It says four things:

- the error flags equal the duplicate relation;
- the fill counter equals the number of nonzero values;
- undoing the applied moves and redoing the redo branch each find the values the moves expect;
- every logical action ends with a user move.

Every command is proved to preserve it. Most commands also keep the board the history started
from (`History.Origin`).

## Model

| member | source | states |
|---|---|---|
| Geometry.CellCoordinates | AuxMethods.c:517-546 | every cell index 0 <= n < N*N lies on the board at (getCol(n), getRow(n)), and getN maps those coordinates back to n |
| Geometry.IndexCoordinates | AuxMethods.c:517-546 | for every on-board (col, row), getN gives an index in 0..N*N-1 whose getCol and getRow are col and row again |
| Geometry.ScanPeers | AuxMethods.c:161-211 | the cells the column, row and block loops visit, other than the cell itself, are exactly the cells sharing a row, column or block with it |
| Board.GetCell | AuxMethods.c:557-559 | the cell at (col, row) is the cell numbered row*N + col, a valid index whose column and row are col and row again |
| Board.GetCellN | AuxMethods.c:569-571 | the n'th cell is a cell of the board |
| Board.GetCellAgree | AuxMethods.c:517-571 | getCellN(n) is getCell at the column and row of n, and getCell(col, row) is getCellN at the index of (col, row): both accessors address the same row-major layout |
| Board.CountFilledUpdate | AuxMethods.c:753-779 | writing x over a cell changes the number of filled cells by -1 if the old value was nonzero and +1 if x is, which is how setCell keeps numFilled |
| Board.NextEmptyCell | AuxMethods.c:582-593 | returns i when i >= N*N; otherwise the least j >= i whose value is 0, or N*N if there is none, and every cell in [i, j) is filled |
| Board.FirstEmptyUnique | AuxMethods.c:582-593 | any index satisfying nextEmptyCell's description is the one the reference scan gives |
| Board.IsErroneous | AuxMethods.c:270-279 | true exactly when some cell carries an error flag |
| Board.ClearDemiVals | AuxMethods.c:960-966 | the demi-values from index i on, i included, become 0; every other field and every cell before i is unchanged |
| Board.CopyValsToDemivals | AuxMethods.c:977-987 | every filled cell's demi-value becomes its value; empty cells are unchanged |
| Board.CopyDemivalsToVals | AuxMethods.c:998-1008 | every cell with a nonzero demi-value takes it as its value; the others are unchanged |
| Board.ClearBoard | AuxMethods.c:807-814 | every value becomes 0 and nothing else changes |
| Constraints.HasDupUnaffected | AuxMethods.c:225-257 | writing a cell changes the duplicate status only of peers holding its old or its new value, which is why isErrorUpdate re-examines just the peers holding the old value |
| Constraints.ScanFindsDup | AuxMethods.c:161-211 | a cell with a nonzero value has a duplicate exactly when the column/row/block scan meets another cell with that value |
| Constraints.MarkPeers | AuxMethods.c:161-211 | the three marking loops flag every peer holding val, touch no other flag and no value, and report whether a peer holds val |
| Constraints.CheckIfError | AuxMethods.c:161-211 | the cell's own flag becomes its duplicate status; if all flags matched the duplicate relation before the cell took val in place of prev, they all match it afterwards |
| Constraints.IsErrorUpdate | AuxMethods.c:225-257 | only flags change; each flag it changes becomes the cell's duplicate status, and every peer holding prev ends with its correct flag |
| Constraints.LoadCells | Game.c:64-70 | reading the cells in row-major order with checkIfError(col, row, val, 0) gives exactly the recomputed flags for the values read |
| History.AddMove | AuxMethods.c:638-648 | the list keeps everything up to the cursor, drops the old redo branch and ends with the new move right after the cursor |
| History.ClearNextMoves | AuxMethods.c:658-684 | the list becomes its prefix up to and including the cursor |
| History.UndoAny | AuxMethods.c:695-707 | moves the cursor back by one and restores the current move's old value; flags, counter and history stay coherent |
| History.RedoAny | AuxMethods.c:718-732 | moves the cursor forward by one and re-applies the next move's new value; flags, counter and history stay coherent |
| History.AdvanceRewind | AuxMethods.c:695-732 | redoing the moves just undone gives back the values undoing started from |
| History.RewindAdvance | AuxMethods.c:695-732 | undoing the moves just redone gives back the values redoing started from |
| History.SetCell | AuxMethods.c:753-768 | the cell takes the new value, the move (old value, new value, user flag) is recorded right after the cursor over a cleared redo branch, and the game stays coherent |
| History.PrevAnchor | Game.c:245-263 | the cursor undo stops at: below the current one, the sentinel or a user move, with only automatic moves in between |
| History.NextAnchor | Game.c:297-315 | the cursor redo stops at: the first user move after the current one |
| History.AnchorsInverse | Game.c:245-315 | on action boundaries, the stop of redo after the stop of undo is the starting cursor again, and the other way round |
| Commands.CreateGame | AuxMethods.c:477-500 | a well-formed game of the requested shape and mode: all cells empty, unfixed and unflagged, no move besides the sentinel |
| Commands.Set | Game.c:151-167 | out-of-range arguments or a fixed cell change nothing; otherwise exactly one user move at (n1-1, n2-1) is recorded; the start board is kept |
| Commands.UndoAction | Game.c:245-263 | the undo loop computes exactly UndoBatch: back to the previous action boundary |
| Commands.Undo | Game.c:245-285 | at the sentinel nothing changes; otherwise exactly one logical action is undone; the game stays well formed |
| Commands.RedoAction | Game.c:297-315 | the redo loop computes exactly RedoBatch: forward through the first user move |
| Commands.Redo | Game.c:297-347 | with nothing to redo nothing changes; otherwise exactly one logical action is redone; the game stays well formed |
| Commands.RedoAfterUndo | Game.c:245-347 | redo after undo restores the whole game: values, flags, counter, list and cursor |
| Commands.UndoAfterRedo | Game.c:245-347 | undo after redo restores the whole game |
| Commands.UndoKeepsOrigin | Game.c:245-285 | undo does not change the board the history started from |
| Commands.RedoKeepsOrigin | Game.c:297-347 | redo does not change the board the history started from |
| Commands.SetKeepsOrigin | AuxMethods.c:753-768 | recording a move over the value it replaces leaves the start board of the history unchanged |
| Commands.Reset | Game.c:615-625 | the cursor is the sentinel, no redo branch is left, and every value is the one before the first recorded move |
| Commands.ResetIdempotent | Game.c:615-625 | reset restores the start board, keeps it as the start board, and a second reset changes nothing |
| Commands.SolveBoard | Validate.c:208-265 | the solver step of validate and hint, including the clearDemiVals(0) both do first (Game.c:189 and Game.c:466): only demi-values change; on success they hold the solver's full assignment, otherwise they are all 0 |
| Commands.Validate | Game.c:180-196 | refused on a board with an error flag; otherwise only demi-values change and the answer is Done exactly when the solver finds a full assignment |
| Commands.Hint | Game.c:438-478 | refusals, in the source's order: off-board cell, error flag, fixed cell, filled cell; otherwise the hint is the solver's value for the cell, or Unsolvable |
| Search.Push | AuxMethods.c:915-924 | the stack grows by one, the new index is on top and everything below is unchanged |
| Search.Pop | AuxMethods.c:934-942 | pop fails exactly on the empty stack; otherwise it returns the top index and the stack below it, one shorter |
| Search.PopPush | AuxMethods.c:915-942 | pop after push returns the pushed index and the stack as it was |
| Search.PushPop | AuxMethods.c:915-942 | pop fails exactly on the empty stack, and pushing back what pop returned restores the stack |
| Search.PeerHolds | AuxMethods.c:1019-1067 | the scan finds x exactly when some peer of the cell holds x |
| Search.IsDemiValid | AuxMethods.c:1019-1067 | true exactly when no peer's demi-value equals the cell's own demi-value |
| Search.CountSolutions | Game.c:504-536 | the stack-driven loop terminates, changes only demi-values, and counts exactly the leaves of the search tree Count |
| Search.NumSolutions | Game.c:492-545 | refused exactly when a cell is flagged; otherwise only demi-values change and the count is Count of the board's values |
| Solutions.SearchCounts | Game.c:492-545 | on a board whose values have no duplicate, the search counts exactly the completions: the ways to fill every empty cell with 1..N with no row, column or block duplicate |
| Solutions.CleanBoardCount | Game.c:492-545 | on a well-formed board without error flags, the number numSolutions reports is the number of completions |
| Autofill.Sole | AuxMethods.c:1086-1144 | nonzero exactly when a single value of 1..N is held by no peer, and then it is that value |
| Autofill.GetCellSingleValue | AuxMethods.c:1086-1144 | returns v != 0 exactly when v is the only value in 1..N that no other cell of the row, column or block holds; otherwise 0 |
| Autofill.MarkSingles | Game.c:570-585 | only demi-values change; they hold each empty cell's single candidate or 0; last is the last cell with a candidate, or -1 |
| Autofill.CommitFrom | Game.c:591-597 | every marked cell before last is set, in index order, as an automatic move; rewinding the new moves gives back the board before the commit |
| Autofill.UndoCommitted | Game.c:245-263 | after a batch of automatic moves closed by a user move, one undo returns to the cursor and the values from before the batch |
| Autofill.Autofill | Game.c:557-605 | refused on an erroneous board; otherwise the single candidates computed on the board before any commit are set, the last as a user move, and one undo takes the batch back; with nothing to fill no move is recorded |
| Autofill.AutofillCells | Game.c:557-605 | filled cells keep their value; an empty cell gets a value exactly when it had a single candidate before the command, and then that candidate |
| Generator.RandInt | AuxMethods.c:795-797 | the draw lies in 0..range-1 |
| Generator.Scatter | AuxMethods.c:833-841 | fills exactly x more cells, keeps every filled cell, writes values in 1..N, and leaves a suffix of the random stream |
| Generator.Mark | AuxMethods.c:852-859 | marks exactly y more cells, each with its value plus 26, leaves the other demi-values alone, and leaves a suffix of the random stream |
| Generator.Prepare | AuxMethods.c:848-862 | on an empty board, only the demi-values end up changed, holding the marks drawn on the solution |
| Generator.PlaceFrom | AuxMethods.c:864-875 | the placing loop stops once every mark is seen, having set each marked cell in index order as an automatic move and cleared every mark |
| Generator.FlagCoherent | AuxMethods.c:876 | flagging the current move as a user move keeps the game coherent |
| Generator.KeepCells | AuxMethods.c:848-878 | after the solver's answer, y cells of the solution are kept and set, the last move is user-flagged, and one undo empties the board again; the kept cells are exactly the ones the keep loop drew (the values are Target of Mark's marks: the solution's value on a drawn cell, 0 elsewhere); it leaves of the random stream exactly what the keep loop did not draw, or nothing when the loop ran dry |
| Generator.TryGenerate | AuxMethods.c:830-879 | a scatter the solver cannot complete leaves the game unchanged; otherwise exactly y cells keep the solver's values, numFilled == y, they are exactly the cells the keep loop drew from the stream the scatter left, they are set in index order and the current move is user-flagged; the attempt's ending and what it leaves of the random stream are exactly Outcome: nothing when the draws run out, the scatter's remainder when there is no usable solution, the keep loop's remainder on success |
| Generator.GeneratedSolvable | AuxMethods.c:830-879 | the generated puzzle is solvable: the solver's board, when it has no duplicate, is one of its completions |
| Generator.Attempts | Game.c:224-231 | the retry loop with budget attempts left: either attempt number tries (at most budget) is the first to succeed, each earlier one failing on what the one before left of the stream, and the result is its board, holding the solution's values on exactly the cells its keep loop drew; or all budget attempts fail in a row and the game is unchanged |
| Generator.FirstSuccessSuffix | AuxMethods.c:830-879 | a first success at any attempt number is one attempt that succeeds on a suffix of the random stream |
| Generator.Generate | Game.c:210-233 | x or y outside 0..(empty cells) or a non-empty board change nothing; otherwise at most 1000 attempts are made, each on what the one before left of the random stream; Done means attempt number tries is the first to succeed (attempts 1..tries-1 failed) and the game is that attempt's generated board, holding the solution's values on exactly the cells its keep loop drew; GeneratorFailed means all 1000 attempts failed in a row and the game is unchanged |
| MarkErrors.ParseMarkErrorInput | AuxMethods.c:94-138 | from state 0 and index 0: 0 for tokens matching 0+, 1 for 0*1, -1 for every other token including the empty one |
| MarkErrors.Run | AuxMethods.c:94-138 | the automaton from any start state and index: answers -1, 0 or 1, and never 0 from state 2 |
| MarkErrors.UninitialisedStart | AuxMethods.c:95 | started in state 1 or 2, as the uninitialised locals allow, the empty token is accepted |

## Left out

- Command-line parsing (Parser.c, `isNum`, `hasNewLine`, `gameLoop`) and the mode gating of commands, which happens in the parser.
- File I/O of solve/edit/save (`readSize`, `readNextCell`, `writeSize`, `writeCell`, `writeCellEndOfLine`). The cell-reading loop is modelled from the values it reads (`Constraints.LoadCells`).
- Printing: `printgb`, `printCell`, `printUndo`/`printRedo` and every message. The `markErrors` field affects printing only and is not modelled.
- Memory management (`safealloc`, `free`, `createElem`, `exitGame`, the leaked stack) and the global record. The move list and the stack are sequences, so nothing is allocated or freed.
- Search.Push: push's failure return when the new element cannot be allocated (AuxMethods.c:917-918) is not modelled, because the model allocates nothing.
- The Gurobi ILP model (Validate.c). The solver is an oracle `seq<int> -> Option<seq<int>>`, which also removes the floating-point comparison in `storeSolution`.
- Commands.Undo: the check after an undo that leaves a full board in Solve mode (Game.c:277-284) is not modelled. It calls the solver, which rewrites every demi-value, prints, and on success switches the mode to Init.
- Commands.Redo: the same check after a redo (Game.c:339-346) is not modelled. In the C it also runs when redo is refused, because the refusal jumps to the END label (Game.c:306-307).
- History.SetCell: setCell's check after the last empty cell is filled in Solve mode (AuxMethods.c:770-778) is not modelled. That check calls the solver, prints, and switches the mode to Init.
- `save` and `solve`/`edit` as whole commands. Only their cell loop is modelled.
- Randomness. `rand()` is a finite input stream of non-negative numbers. When it runs out, an attempt ends with `OutOfDraws`, which has no counterpart in the C, where the draws never end.
- Generator.Usable: a solver answer that is not a full assignment of 1..N is treated as "no solution". The C trusts the ILP answer.
- Generator.TryGenerate: the values the random scatter writes are only passed to the solver. After a failed solve they are cleared again, so the model never writes them to the game. In the C they bypass setCell (no flags, no counter), and clearBoard removes them again.
- Commands.Redo: requires the well-formedness invariant. Under it, every redo branch ends with a user move. The C redo loop (Game.c:311-315) has no end-of-list check and relies on the same fact.
- Search.CountSolutions: the counter is an unbounded nat. The C counter is a 32-bit `int counter` (Game.c:494), printed with %d (Game.c:539), and incrementing it past 2^31-1 solutions is undefined behaviour.
- Search.NumSolutions: the count it returns is the same unbounded nat, so the model does not show the C's overflow of `counter` (Game.c:494) past 2^31-1 solutions.
- Search.CountSolutions: the branch for a cell that already holds a value (Game.c:517-520) cannot be reached. Every index pushed comes from nextEmptyCell, and the model proves the branch dead.
- The comments of `copyValsToDemivals` and `copyDemivalsToVals` are swapped, and `clearDemiVals(i)` clears from i inclusive although its comment says "greater than i". The model follows the code.
- The constant 26 of tryGenerate is `Generator.Offset`. With a full solution a mark is never exactly 26, but the model keeps the `demiVal != 26` branch.
- MarkErrors.ParseMarkErrorInput: requires a token without NUL characters. A C string ends at its first NUL.
- `Mode` is carried along but no modelled command changes it. `edit` without a file only calls createGame with 3x3 blocks, which is `Commands.CreateGame`.

## Findings

| source | as written | input that shows it | evidently intended | confidence | as-written member | corrected member |
|---|---|---|---|---|---|---|
| AuxMethods.c:95 | `state` and `i` are read before they are ever assigned, so the automaton starts from whatever the stack holds | the empty token with `state` left at 1 (or 2) is answered 0 (or 1) instead of -1 | `state = 0` and `i = 0` before the loop | high; not executed | MarkErrors.Run, MarkErrors.UninitialisedStart | MarkErrors.ParseMarkErrorInput |
