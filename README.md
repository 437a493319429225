# Checkers engine in Dafny

This project models the rules engine underneath a React checkers game and
proves properties of it. The board is 8×8, and squares are ids 0..63 in
row-major order. Only the 32 squares whose row and column add up to an odd
number exist. Pieces move along the diagonal offsets ±7 and ±9.

The repository holds the engine in several revisions, and each is modelled
in the form its source takes:

- `layout.dfy` (module `Layout`) holds the board shared by every revision:
  players, the playable squares, the initial position, diagonal geometry,
  and the move of a piece as the components write it (object spread).
- `movegen.dfy` (module `MoveGen`) is the move generator of
  `src/components/Board/utils.ts`. `getNextPos` becomes a function.
  `calcNextPositions` becomes a method with two loops: one sets the
  capture flag while probing, the other folds the probes. The method is
  proved equal to the function `NextPositions`.
- `grid_resolver.dfy` (module `GridResolver`) is the earlier resolver of
  `src/components/Grid/index.tsx`, built on the generator. It is a class
  whose handlers replace its state, specified by pure transition functions.
- `turn_resolver.dfy` (module `TurnResolver`) is the later resolver of
  `src/components/Board/index.tsx`. It tracks forced captures per piece
  (`nmp`) and highlighted squares (`nrp`). It continues jump chains, and
  when the turn passes it picks up the opponent's only forced piece.
- `history.dfy` (module `GameHistory`) is the `useHistory` hook of
  `src/components/Game/index.tsx`: a list of board states plus an index.
- `first_revision.dfy` (module `FirstRevision`) is `src/App.tsx`, the first
  revision. It has forward-only probes and moves without capture.
- `class_names.dfy` (module `ClassNames`) is `composeCls` from
  `src/utils/index.ts`.

Ids are integers. A square's content is `Option<Player>`. A board is a
`map<int, Option<Player>>` whose keys are its squares.

Behaviour the model reproduces as the code has it:

- The earlier resolver computes the follow-up jumps after a capture on the
  board as it was BEFORE the move (`src/components/Grid/index.tsx:81`). On
  that board the landing square is still empty, so the generator probes
  as if the mover were the second player.
  - `GridResolver.FollowUpJumpsOverFirstPlayer` states the consequence in
    general.
  - `GridResolver.FollowUpMissesChain` gives a position where the turn
    passes although the landed piece could jump again.
  - The later resolver computes its chain on the board after the move.
- The first revision never changes `player1Turn`. It leaves the
  highlighted squares as they were after a move. It lets a piece move to
  any square of the board, because its cell component forwards every
  click (`src/App.tsx:42-55`).
- Square 20 has an even row plus column, so it is not a square of the
  board. The worked jump (`MoveGen.LoneJump`) therefore takes a
  first-player piece on 21 over 30 to 39.
- Jump chains and turn passing in the later resolver depend on helper
  rules (`getRegularSteps`, `getMandatorySteps`, `getAllMandatorySteps`,
  `getPlayerByStep`, `getOppositePlayer`). Their definitions are not part
  of this model. They are the function-valued fields of
  `TurnResolver.Helpers`. `TurnResolver.Shaped` makes the only
  assumptions about them. Every jumped square (`capturedId`) that
  `mandatorySteps` returns is a square of the board it was given. Every key
  of the dictionary that `allMandatorySteps` returns, and every jumped
  square in its lists, is a square of that board. Nothing is assumed about
  what `regularSteps` returns, nor about the landing squares (`Capture.id`)
  of either capture helper.

## Model

| member | source | states |
|---|---|---|
| Layout.InitialCells | src/components/Board/index.tsx:56-68 | the initial board's keys are exactly the playable squares, and each holds its initial occupant (first player below 24, second above 39, else empty) |
| Layout.PlayableIsRowColOdd | src/components/Board/index.tsx:27 | the `isEmpty` test excludes a square exactly when its row plus column is even |
| Layout.PlayableSquares | src/components/Board/index.tsx:26-40 | a square is playable exactly when it is one of the 32 dark squares, listed four per row |
| Layout.InitialSquares | src/components/Board/index.tsx:56-68 | the initial board has exactly the 32 dark squares |
| Layout.InitialPieces | src/components/Board/index.tsx:28-33 | each player starts with 12 pieces: the first on the dark squares of rows 0-2, the second on those of rows 5-7 |
| Layout.InitialSymmetric | src/components/Board/index.tsx:28-29 | the initial position is symmetric about the centre: square i holds a first-player piece exactly when square 63-i holds a second-player piece |
| Layout.DiagonalNeighbour | src/components/Board/utils.ts:18 | between two playable squares, an offset of ±7 or ±9 moves one row and one column |
| Layout.StepIsDiagonal | src/components/Board/utils.ts:18-21 | a step between playable squares lands on a diagonal neighbour |
| Layout.JumpIsDiagonal | src/components/Board/utils.ts:18-21 | a jump between playable squares goes two squares along one diagonal, over the square between them |
| Layout.EdgeWrapIsUnplayable | src/components/Board/utils.ts:20-21 | an offset that would cross a board edge lands on a square that is not playable, so the presence test alone rules out wrapping |
| Layout.MoveOn | src/components/Board/index.tsx:118-128 | after a move the destination holds the moving piece, and the origin and the captured square are empty; every other square keeps its occupant |
| Layout.OccupantAt | src/components/Board/index.tsx:221 | the occupant read for a square (`cellsById[id]?.occupied`, or null): a key of the board reads as its occupant, and a piece is reported only for a key, so a missing square reads as empty |
| Layout.MoveOnKeepsSquares | src/components/Board/index.tsx:118-128 | a move between squares of the board keeps exactly the same squares |
| MoveGen.GetNextPos | src/components/Board/utils.ts:3-43 | the probe returns a step exactly when the neighbour is present and empty and `capturingOnly` is unset; it returns a jump exactly when the neighbour holds the opponent and the square beyond is present and empty; otherwise it returns nothing |
| MoveGen.ConfigFor | src/components/Board/utils.ts:56-85 | the opponent is the second player exactly for a first-player piece; the four increments are distinct diagonal offsets, and an increment is capture-only exactly when it does not point forward |
| MoveGen.Probes | src/components/Board/utils.ts:89-104 | the map pass probes the four configured increments, one each |
| MoveGen.AnyCaptureAppend | src/components/Board/utils.ts:99-101 | the capture flag after one more probe is the old flag, or-ed with whether that probe is a jump |
| MoveGen.CalcNextPositions | src/components/Board/utils.ts:45-118 | the two-pass loop (flag set while mapping, then a fold) yields exactly `NextPositions` |
| MoveGen.Keep | src/components/Board/utils.ts:105-117 | one reduce step (a definition): a present probe result is added under its own square, unless the capture flag is set and it is a plain step; otherwise the accumulator is returned as it is |
| MoveGen.Collected | src/components/Board/utils.ts:105-117 | the whole reduce: at most one key per probe, each key mapped to a result landing on it, and only jumps once the capture flag is set |
| MoveGen.NextPositions | src/components/Board/utils.ts:45-118 | the destinations of a piece: at most four, each keyed by its own square, and only jumps when any probe finds a jump |
| MoveGen.CollectedEntries | src/components/Board/utils.ts:105-117 | the fold keeps at most one entry per probe; every key maps to a probe with that id; only jumps are kept when the flag is set; every kept probe is present |
| MoveGen.CollectedFromProbes | src/components/Board/utils.ts:105-117 | every entry of the fold is one of the probe results |
| MoveGen.CollectedCovers | src/components/Board/utils.ts:105-117 | every probe result the fold should keep (present, and a jump once the flag is set) has its square among the keys |
| MoveGen.CollectedValues | src/components/Board/utils.ts:105-117 | when the probes land on distinct squares, each kept result is the entry under its own square |
| MoveGen.ProbesAreDirections | src/components/Board/utils.ts:56-85 | the first player probes +7, +9, -7, -9 (backward ones jumps only); any other occupant probes the negated offsets against the first player |
| MoveGen.ProbesDistinct | src/components/Board/utils.ts:89-104 | the four probes land on distinct squares |
| MoveGen.AnyCaptureIsCaptureAvailable | src/components/Board/utils.ts:87-101 | the capture flag is set exactly when some diagonal has an opponent piece with an empty square beyond it |
| MoveGen.NextPositionsByDirection | src/components/Board/utils.ts:89-117 | there are at most four destinations, each keyed by its own id and produced by one diagonal's probe; when a jump exists only jumps remain; every probe that is kept is present |
| MoveGen.CaptureEntry | src/components/Board/utils.ts:28-42 | `{s+2d, captured s+d}` is offered exactly when s+d holds the opponent and s+2d is present and empty, in each of the four directions |
| MoveGen.CaptureCompulsory | src/components/Board/utils.ts:111-115 | when any jump is available, every destination is a jump |
| MoveGen.CapturingOnlyYieldsJumps | src/components/Board/utils.ts:24 | with `capturingOnly` set, no plain step is ever offered |
| MoveGen.NoCaptureEntryIsStep | src/components/Board/utils.ts:23-26 | with no jump available, every destination is an empty forward neighbour, offered as a step |
| MoveGen.NoCaptureStepIsEntry | src/components/Board/utils.ts:23-26 | with no jump available, every empty forward neighbour is offered (unless `capturingOnly`) |
| MoveGen.RegularStepsWhenNoCapture | src/components/Board/utils.ts:62-84 | with no jump available, the destinations are exactly the present, empty forward neighbours (+7/+9 for the first player, -7/-9 otherwise), none with a captured square |
| MoveGen.DestinationsOnBoard | src/components/Board/utils.ts:20-21 | every destination is a present, empty square keyed by its own id; every jumped square holds the opponent; there are at most four |
| MoveGen.DestinationsDiagonal | src/components/Board/utils.ts:18-21 | on a well-formed board a step lands one diagonal square away and a jump two, over the square halfway |
| MoveGen.LoneJump | src/components/Board/utils.ts:105-117 | a first-player piece on 21 facing a second-player piece on 30 with 39 empty is offered only the jump to 39; the step to 28 is suppressed |
| GridResolver.InitialGridState | src/components/Grid/index.tsx:44-61 | the component starts on the initial board, with nothing selected, nothing offered and step 0 |
| GridResolver.InitialGridValid | src/components/Grid/index.tsx:44-61 | the initial state satisfies the state invariant |
| GridResolver.TurnPlayer | src/components/Grid/index.tsx:144-147 | the player to move: the first player on even steps, the second on odd ones |
| GridResolver.Enabled | src/components/Grid/index.tsx:143-147 | a square can be picked up exactly when it holds a piece of the player to move |
| GridResolver.CapturedAt | src/components/Grid/index.tsx:79 | the jumped square recorded for the clicked destination, and none when nothing is offered |
| GridResolver.Highlighted | src/components/Grid/index.tsx:158 | a square is highlighted exactly when it is a key of the offered destinations |
| GridResolver.Select | src/components/Grid/index.tsx:67-71 | picking up a piece offers the generator's destinations and keeps the board and the step |
| GridResolver.SelectKeepsValid | src/components/Grid/index.tsx:67-71 | after a selection every offered destination and jumped square is a square of the board |
| GridResolver.FollowUp | src/components/Grid/index.tsx:79-82 | the follow-up after a move consists of jumps only, and is empty after a plain step |
| GridResolver.FollowUpJumpsOverFirstPlayer | src/components/Grid/index.tsx:80-82 | computed on the pre-move board, where the landing square is empty, every follow-up jump is over a first-player piece |
| GridResolver.FollowUpMissesChain | src/components/Grid/index.tsx:79-83 | after 21 jumps 30 to 39 with a second-player piece on 46 and 53 empty, the turn passes, although the piece on 39 can jump 46 on the new board |
| GridResolver.Move | src/components/Grid/index.tsx:78-100 | with no active piece nothing changes. Otherwise the piece moves and the jumped square empties. The turn passes (step + 1, nothing selected) exactly when no follow-up is offered; otherwise the step is kept and the landed piece stays selected |
| GridResolver.MoveKeepsValid | src/components/Grid/index.tsx:85-100 | a move to a highlighted square keeps the state invariant |
| GridResolver.GridClick | src/components/Grid/index.tsx:110-121 | a click that is not on a highlighted square clears the selection and the offers; the board and the step stay |
| GridResolver.TurnAlternates | src/components/Grid/index.tsx:144-147 | the first player's pieces are enabled on even steps; the enabled player flips with every step |
| GridResolver.Grid.constructor | src/components/Grid/index.tsx:44-61 | the component starts in the initial state |
| GridResolver.Grid.OnCellClick | src/components/Grid/index.tsx:63-108 | a click on an enabled piece is `Select`; a click on a highlighted square is `Move` (the generator runs as the two-pass method); the invariant is kept |
| GridResolver.Grid.OnGridClick | src/components/Grid/index.tsx:110-121 | the click replaces the state by `GridClick` |
| TurnResolver.InitialBoardState | src/components/Board/index.tsx:55-77 | the component starts on the initial board with step 0, no forced captures, nothing highlighted and nothing selected |
| TurnResolver.InitialBoardValid | src/components/Board/index.tsx:55-77 | the initial state satisfies the state invariant |
| TurnResolver.CapturedFor | src/components/Board/index.tsx:115-117 | a jumped square is found exactly when some forced capture lands on the target; it is that of the first such capture |
| TurnResolver.SortedKeys | src/components/Board/index.tsx:163 | the entries of the forced-capture dictionary come with their integer keys ascending, each key once |
| TurnResolver.SoleKey | src/components/Board/index.tsx:165-167 | a piece is picked up exactly when the dictionary has a single key, and it is that key |
| TurnResolver.Enabled | src/components/Board/index.tsx:221-224 | while any piece has forced captures, exactly those pieces can be picked up; otherwise exactly the pieces of the player to move |
| TurnResolver.CapturedPiece | src/components/Board/index.tsx:115-117 | a jumped square is found exactly when the active piece has a forced capture landing on the clicked square |
| TurnResolver.ChainFrom | src/components/Board/index.tsx:142-146 | the further captures of the landed piece, asked of `mandatorySteps` on the board after the move, and none after a plain step |
| TurnResolver.Select | src/components/Board/index.tsx:82-102 | a piece with forced captures highlights exactly their landing squares; any other piece highlights its regular steps; the board, step and forced captures stay |
| TurnResolver.ForcedSelection | src/components/Board/index.tsx:86-91 | while captures are forced, only forced pieces are enabled, and picking one up highlights exactly its capture landings |
| TurnResolver.Move | src/components/Board/index.tsx:104-175 | with no active piece nothing changes. After a jump that can continue: the landed piece stays picked up, the step is kept, the state is historic, and only that piece has forced captures. Otherwise: the step grows by one, the opponent's forced captures and their landings are set, and a piece is picked up exactly when one piece is forced |
| TurnResolver.ChainLocksPiece | src/components/Board/index.tsx:142-156 | during a jump chain the landed piece is the only enabled one |
| TurnResolver.HistoryDueIffTurnPasses | src/components/Board/index.tsx:132-156 | a move leaves the state non-historic (a history item is due) exactly when it advances the step |
| TurnResolver.PassHighlightsForcedLandings | src/components/Board/index.tsx:158-173 | after a turn pass the highlighted squares are exactly the landing squares of the opponent's forced captures |
| TurnResolver.FlattenAlongMembers | src/components/Board/index.tsx:170-172 | a square is in the flattened list exactly when a listed piece has a capture landing there |
| TurnResolver.FlattenMembers | src/components/Board/index.tsx:170-172 | the flattened landings are exactly those of some forced piece |
| TurnResolver.MoveKeepsValid | src/components/Board/index.tsx:114-128 | with helpers whose jumped squares, and the forced-piece keys of `allMandatorySteps`, are squares of the board they were given, a move keeps the state invariant |
| TurnResolver.SelectKeepsValid | src/components/Board/index.tsx:82-102 | a selection keeps the state invariant |
| TurnResolver.BoardClick | src/components/Board/index.tsx:179-197 | on a target that is absent or not highlighted, only the sole forced piece stays picked up and the forced landings are highlighted; a highlighted target changes nothing; board, step and forced captures always stay |
| TurnResolver.BoardClickKeepsValid | src/components/Board/index.tsx:184-196 | a board click keeps the state invariant |
| TurnResolver.DeselectWithoutForcedCaptures | src/components/Board/index.tsx:185-193 | with no forced captures, a deselect leaves nothing picked up and nothing highlighted |
| TurnResolver.Board.constructor | src/components/Board/index.tsx:55-77 | the component starts in the initial state |
| TurnResolver.Board.OnCellClick | src/components/Board/index.tsx:82-177 | a click on an enabled piece is `Select`; a click on a highlighted square is `Move`, built by overwriting a new state field by field; the invariant is kept |
| TurnResolver.Board.OnBoardClick | src/components/Board/index.tsx:179-197 | the click replaces the state by `BoardClick` |
| GameHistory.Added | src/components/Game/index.tsx:106-118 | when the last entry's step is at least the item's, the history keeps its first min(step, length) entries and then the item; otherwise the item is appended; the earlier entries are never changed |
| GameHistory.AddedKeepsIndexed | src/components/Game/index.tsx:106-118 | if entry j holds step j before, it still does after adding a state that follows one of them, and the new index points at the last entry |
| GameHistory.MoveAfterRewindDropsFuture | src/components/Game/index.tsx:112-113 | going back to entry i and then moving discards every later entry before appending |
| GameHistory.MoveAtEndAppends | src/components/Game/index.tsx:116 | moving on from the last entry appends and keeps the whole history |
| GameHistory.Reset | src/components/Game/index.tsx:129-132 | a reset keeps only the first entry, if there is one |
| GameHistory.ResetKeepsIndexed | src/components/Game/index.tsx:129-132 | after a reset the only entry is the original first one, and the history stays indexed by step |
| GameHistory.IsWhiteTurn | src/components/Game/index.tsx:24 | the turn indicator shows white exactly on even history indices |
| GameHistory.TurnColourAlternates | src/components/Game/index.tsx:24 | the turn indicator is white at index 0 and flips colour with every step of the index |
| GameHistory.History.constructor | src/components/Game/index.tsx:103-104 | the hook starts with an empty history and index 0 |
| GameHistory.History.AddHistoryItem | src/components/Game/index.tsx:106-118 | the history becomes `Added` and the index becomes the item's step |
| GameHistory.History.NextHistoryStep | src/components/Game/index.tsx:120-123 | the index grows by exactly one; the button is disabled on the last entry (line 74) |
| GameHistory.History.PrevHistoryStep | src/components/Game/index.tsx:124-127 | the index shrinks by exactly one; the button is disabled at 0 (line 68) |
| GameHistory.History.ResetHistory | src/components/Game/index.tsx:129-132 | the history becomes `Reset` and the index 0 |
| GameHistory.History.SetHistoryIndex | src/components/Game/index.tsx:54-61 | a "Go to" button sets the index to its entry |
| FirstRevision.Probe | src/App.tsx:112-126 | the walk along one increment: nothing at a missing square or an own piece, the square itself when empty, and onward over an opponent piece |
| FirstRevision.AvailableCells | src/App.tsx:89-132 | the highlighted squares: the first player's probes along +7 and +9 against the second player, anyone else's along -7 and -9 against the first, in that order |
| FirstRevision.ProbeFollowsRun | src/App.tsx:112-126 | a square the probe finds ends a path from the piece that crosses only opponent pieces |
| FirstRevision.RunIsProbed | src/App.tsx:112-126 | every path that crosses only opponent pieces to an empty square is what the probe finds |
| FirstRevision.ProbeIffRun | src/App.tsx:119-126 | the probe finds t exactly when a run of opponent pieces leads to the empty square t; an own piece or a missing square first yields nothing |
| FirstRevision.ProbeLandsOnEmpty | src/App.tsx:119-122 | the square found is present and empty |
| FirstRevision.ProbeGoesForward | src/App.tsx:117 | a probe moves only in the sign of its increment |
| FirstRevision.AvailableCellsShape | src/App.tsx:128-131 | at most two squares are highlighted, one per forward diagonal, each present and empty |
| FirstRevision.AvailableCellsAhead | src/App.tsx:96-110 | the highlighted squares lie ahead: higher ids for the first player, lower for anyone else |
| FirstRevision.CheckNextPos | src/App.tsx:112-126 | the recursive walk appends the probe's find, if any, to the list it is given |
| FirstRevision.CalcAvailableCells | src/App.tsx:89-132 | the two walks produce exactly the probes along the two forward diagonals: at most two squares, present and empty |
| FirstRevision.InitialAppState | src/App.tsx:140-162 | the first revision starts on the initial board with nothing selected and the first player to move |
| FirstRevision.InitialAppValid | src/App.tsx:146-157 | the initial state satisfies the state invariant |
| FirstRevision.AppClick | src/App.tsx:164-192 | a piece click selects and highlights its probes. A square click: nothing without a selection; on the selected square, a deselect; elsewhere, a move without capture that keeps the piece selected and the old highlights. The turn flag never changes |
| FirstRevision.AppClickKeepsValid | src/App.tsx:180-190 | a click keeps the state invariant |
| FirstRevision.MoveKeepsOtherSquares | src/App.tsx:184-188 | the moved piece lands on the destination, the origin is emptied, and every other square is unchanged |
| FirstRevision.TurnNeverPasses | src/App.tsx:161 | no series of clicks ever changes `player1Turn` |
| FirstRevision.FirstGrid.constructor | src/App.tsx:140-162 | the component starts in the initial state |
| FirstRevision.FirstGrid.OnCellClick | src/App.tsx:164-192 | the click replaces the state by `AppClick`, computing the highlights with the recursive walks |
| ClassNames.TruthyKeys | src/utils/index.ts:5-12 | the keys of the truthy entries, in entry order, never more than there are entries |
| ClassNames.Join | src/utils/index.ts:13 | the names separated by single spaces, with "" for no names |
| ClassNames.ComposedClassName | src/utils/index.ts:5-13 | the class attribute: the base classes followed by the truthy keys, all joined by spaces |
| ClassNames.TruthyKeysMembers | src/utils/index.ts:6-12 | a key is selected exactly when its entry is truthy; false and undefined never select |
| ClassNames.TruthyKeysAppend | src/utils/index.ts:5-12 | selection keeps entry order: the keys selected from two runs of entries follow one another |
| ClassNames.JoinAppend | src/utils/index.ts:13 | joining two non-empty lists puts one space between their joins |
| ClassNames.BaseClassesFirst | src/utils/index.ts:5-13 | the base classes come first, in order, followed after one space by the selected keys. With no truthy flag the result is the base classes alone, which is "" when there are none |
| ClassNames.ComposeCls | src/utils/index.ts:1-14 | the caller's list grows in place by the selected keys, and the result is that list joined by spaces |

## Left out

- Rendering, CSS and the `Cell` and `Piece` components are not modelled. The clicks their handlers forward (a highlighted square, an enabled occupied piece) are preconditions of the click handlers. The same applies to the Grid, the later Board and the History buttons.
- React plumbing is not modelled: `useState`, `useCallback` and `React.memo`. Neither are the effects that record and restore history (`src/components/Board/index.tsx:200-211`, `src/components/Grid/index.tsx:123-133`) or the call to `addHistoryStep` inside the earlier resolver's reducer (`src/components/Grid/index.tsx:102`). The History hook is modelled on its own, with the later resolver's state as its item.
- A cell click also bubbles up to the board's click handler. Both handlers are modelled, but their composition on one click is not.
- The `alert` shown when a square is clicked with no active piece is left out. The state is unchanged, as modelled.
- DOM reads (`dataset.id`, `className`) become an optional target id or a highlighted flag.
- The helper rules `getRegularSteps`, `getMandatorySteps`, `getAllMandatorySteps`, `getPlayerByStep` and `getOppositePlayer` are not in any file of this model. They are parameters, and only their shape is assumed. Properties that depend on their rules, such as "every forced piece really has a jump", are therefore not stated for the later resolver.
- Win, loss and draw detection and king promotion are not implemented by the source. They are not modelled.
- String ids and their conversions (`+id + increment + ''`) are not modelled; ids are integers 0..63.
- `Object.entries` ordering is written out where it matters. For the forced-capture dictionary, integer-like keys come ascending (`TurnResolver.SortedKeys`). For `composeCls`, the flags are a sequence in insertion order, since class names are not integer-like.
- The copy of `composeCls` in `src/App.tsx:6-19` is identical to the one in `src/utils/index.ts`, so it is modelled once, as `ClassNames.ComposeCls`.
- The first revision's `disabled` flag (`src/App.tsx:209-211`) only selects a CSS class there, and its cell forwards every click. It is not a selectability rule and is not modelled.
- `FirstRevision.CheckNextPos` requires every key of the board to be a square id 0..63, which bounds its recursion. Every board the components build meets this. A board with other keys, which the source's recursion would also walk, is not covered.
- Restoring a history item as the live state (`src/components/Board/index.tsx:207-211`) is not modelled.
