# Number guessing game: a Dafny model of its game-state machine

The repository is one React component, `NumberGuessing`. It draws a secret
number between 1 and 5, takes the player's guesses, counts the wrong ones and
announces the win. All of its logic sits in six pieces of component state
(`gameStarted`, `gameOver`, `paused`, `targetNumber`, `userGuess`,
`attempts`), six event handlers that assign them, one effect that re-draws
the target, and the conditions in the returned markup that decide which
controls are shown. This project models that logic and proves what it
guarantees.

- `game_state.dfy`, module `GameState`: the state as a value (`State`), the
  `number | string` guess (`GuessValue`: the empty text, NaN, or an integer),
  the user's intents, and the random draw `DrawTarget`. It also holds three
  functions: `Handle` gives the state each handler leaves, `TargetEffect` is
  the `useEffect` on `[gameStarted, paused]`, and `Offered` is the gating of
  the markup. `Step` is one user action: the handler, then the effect.
- `number_guessing.dfy`, module `NumberGuessingComponent`: the class
  `NumberGuessing` with the six state fields. It has one method per handler,
  each with a `modifies` frame naming exactly the fields its setters assign.
  `RunTargetEffect` is the effect. `Perform` runs one handler and then the
  effect on an offered control, and keeps a ghost `history` of the actions.
- `game_properties.dfy`, module `GameProperties`: runs of actions (`Run`,
  `Legal`), the invariant of the reachable states (`Inv`), the attempt
  counter as a count over the run (`MissesSinceReset`), and the game's phases
  as a state machine (`PhaseOf`, `Transition`).

Each user action is one atomic step: the handler's assignments, then the
effect compared against the dependencies before the action. `Math.random()`
is a parameter `u` of the subset type `Sample` (reals in [0, 1)). The draw
`Math.floor(u * 5) + 1` is computed over exact reals.

The model keeps what the code does where it differs from an idealised
version of the game:

- A guess is still evaluated while the game is paused. The Guess button sits
  outside the pause/resume conditional (number-guessing.tsx:101-139), so it
  is rendered for every started game that is not over, paused or not.
- Resume re-draws the target, because the effect fires whenever `paused`
  turns false in a started game (:28-33). The target is not kept across a
  pause. `PauseThenResume` states what the code does.
- `attempts` is reset by Start Game and by Try Again. So it counts the missed
  guesses since the most recent of the two, not since the last start. After
  Try Again it is 0 although the finished game had misses.
- Try Again leaves `paused` as it was. A game won while paused is followed by
  a state that is not started but still paused. Start Game clears `paused`.

## Model

| member | source | states |
|---|---|---|
| GameState.DrawTarget | src/components/number-guessing.tsx:30 | every target drawn by `Math.floor(Math.random() * 5) + 1` lies in 1..5, the range the on-screen text announces (:86) |
| GameState.Wins | src/components/number-guessing.tsx:55 | a guess wins exactly when it is a number equal to the target; the empty text and NaN never win |
| GameState.StoredGuess | src/components/number-guessing.tsx:71-73 | the input handler never stores the empty text; it stores exactly the integer `parseInt` found, and NaN when it found none |
| GameState.Handle | src/components/number-guessing.tsx:36-73 | the state each handler leaves: no handler assigns the target, `attempts` is only reset to 0 or raised by one, only a winning guess sets `gameOver`, only Try Again and typing change the guess, only Start, Pause and Resume change `paused` |
| GameState.TargetEffect | src/components/number-guessing.tsx:28-33 | the effect changes at most the target; it does nothing when neither dependency changed, and a new target is always in 1..5 in a started, unpaused game |
| GameState.Step | src/components/number-guessing.tsx:28-73 | one action leaves what its handler leaves apart from the target, and only Start Game and Resume can give the target a new value, always in 1..5 |
| GameState.Offered | src/components/number-guessing.tsx:89-164 | the running-game controls (Pause, Resume, the guess input, Guess) show only while started and not over; Start Game only when not started; Try Again only when over |
| GameProperties.GuessOfferedWithPauseOrResume | src/components/number-guessing.tsx:101-139 | the Guess button and the input show exactly when Pause or Resume shows, so also while paused; Pause and Resume never show together |
| GameProperties.DrawTargetPreimage | src/components/number-guessing.tsx:30 | the draw gives `n` exactly when `Math.random()` falls in [(n-1)/5, n/5), so each of 1..5 gets a fifth of the unit interval |
| GameProperties.StartGameEffect | src/components/number-guessing.tsx:28-41 | Start Game, when offered, sets started, not over, not paused and 0 attempts, keeps the guess text, and the effect draws a fresh target in 1..5 |
| GameProperties.SubmitGuessEffect | src/components/number-guessing.tsx:54-60 | a guess equal to the target sets `gameOver` and changes nothing else; any other guess adds exactly one attempt and changes nothing else; no re-draw, paused or not |
| GameProperties.NonNumberGuessIsMiss | src/components/number-guessing.tsx:55-58 | a guess that is the empty text or NaN never ends the game and always adds one attempt |
| GameProperties.PauseGameEffect | src/components/number-guessing.tsx:28-46 | Pause changes only `paused`, to true, and never re-draws the target |
| GameProperties.ResumeGameEffect | src/components/number-guessing.tsx:28-51 | Resume sets `paused` false and, in a started and paused game, re-draws the target; nothing else changes |
| GameProperties.TryAgainEffect | src/components/number-guessing.tsx:63-68 | Try Again clears started, over, the guess text and the attempts, keeps `paused` and the target, and draws nothing |
| GameProperties.EditGuessEffect | src/components/number-guessing.tsx:71-73 | typing in the guess field changes the stored guess only |
| GameProperties.PauseThenResume | src/components/number-guessing.tsx:44-51 | Pause followed by Resume restores the state paused from, except that the target is drawn anew |
| GameProperties.InitialInv | src/components/number-guessing.tsx:20-25 | the initial state satisfies the invariant |
| GameProperties.StepKeepsInv | src/components/number-guessing.tsx:28-147 | every offered action keeps the invariant: over implies started, attempts at least 0 and 0 when not started, a started game's target in 1..5, and an over game's guess equal to its target |
| GameProperties.ReachableInv | src/components/number-guessing.tsx:20-147 | the invariant holds after every sequence of offered actions from the initial state |
| GameProperties.AttemptsCountMisses | src/components/number-guessing.tsx:36-68 | `attempts` equals the number of guesses that missed since the last Start Game or Try Again |
| GameProperties.MissesSinceReset | src/components/number-guessing.tsx:36-68 | the reference miss count of a run never exceeds the number of Guess actions in it, and is 0 right after Start Game or Try Again |
| GameProperties.ReachablePanelsPartition | src/components/number-guessing.tsx:89-164 | in every reachable state exactly one panel is shown: the Start Game button, the running-game controls, or the Try Again panel |
| GameProperties.ReachableWonMeansGuessed | src/components/number-guessing.tsx:54-60 | in every reachable state a game that is over holds the guess equal to the target, and the target is in 1..5 |
| GameProperties.OfferedMatchesPhase | src/components/number-guessing.tsx:89-147 | a control is shown exactly when the phase machine has an edge for it from the current phase (Start only when not started, Pause/Resume when running and not paused/paused, Guess when running, paused or not, Try Again only when over) |
| GameProperties.StepFollowsTransition | src/components/number-guessing.tsx:36-147 | every offered action moves along an edge of the phase machine, and a guess reaches Won exactly when it equals the target |
| NumberGuessingComponent.NumberGuessing.constructor | src/components/number-guessing.tsx:20-25 | the six fields start at not started, not over, not paused, target 0, empty guess, 0 attempts |
| NumberGuessingComponent.NumberGuessing.HandleStartGame | src/components/number-guessing.tsx:36-41 | assigns started, over, attempts and paused as `Handle` does for Start Game, and no other field |
| NumberGuessingComponent.NumberGuessing.HandlePauseGame | src/components/number-guessing.tsx:44-46 | assigns `paused` true and no other field |
| NumberGuessingComponent.NumberGuessing.HandleResumeGame | src/components/number-guessing.tsx:49-51 | assigns `paused` false and no other field |
| NumberGuessingComponent.NumberGuessing.HandleGuess | src/components/number-guessing.tsx:54-60 | sets `gameOver` on a numeric guess equal to the target, otherwise adds one to `attempts`; no other field |
| NumberGuessingComponent.NumberGuessing.HandleTryAgain | src/components/number-guessing.tsx:63-68 | clears started, over, the guess and the attempts; no other field |
| NumberGuessingComponent.NumberGuessing.HandleUserGuessChange | src/components/number-guessing.tsx:71-73 | stores the parsed integer or NaN in `userGuess`; no other field |
| NumberGuessingComponent.NumberGuessing.RunTargetEffect | src/components/number-guessing.tsx:28-33 | when started or paused differ from before and the game runs unpaused, sets the target to the draw; otherwise changes nothing |
| NumberGuessingComponent.NumberGuessing.Perform | src/components/number-guessing.tsx:28-164 | one offered action (handler, then effect) yields `Step` of the old state, keeps the invariant and leaves `attempts` equal to the misses since the last Start Game or Try Again |

## Left out

- The markup, its Tailwind classes and its layout are presentation only. The
  model keeps only the conditions that decide which controls are shown.
- `Button` and `Input` from the `@/components/ui` directory are not part of this model.
- React's render scheduling, batching of setter calls, and the stale closure
  in `setAttempts(attempts + 1)` are not modelled. Each handler together with
  the effect that follows it is one atomic step.
- Floating point: `Math.random()` and `Math.floor(x * 5) + 1` are computed
  over exact reals in [0, 1). IEEE rounding is not modelled. It keeps the
  draw in 1..5 as well.
- `parseInt` on the input text is not modelled. Its result is a parameter:
  an integer, or `None` for NaN.
- The `NumberGuessingState` interface is never used by the component. Only
  its field types are borrowed.
- The displayed text ("Attempts: …", "Game Over!") only shows state and is
  not modelled.
