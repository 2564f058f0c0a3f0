/**
 * The state and the state transitions of the NumberGuessing component,
 * as values: the six pieces of component state, the intents the rendered
 * controls dispatch, the handlers, the target-sampling effect and the
 * control gating of the rendered markup.
 */
module GameState {

  datatype Option<T> = None | Some(value: T)

  /** The `number | string` held in `userGuess`: the empty string it starts
      with (and is reset to), the NaN that `parseInt` yields for text that is
      not a number, or an integer. */
  datatype GuessValue = EmptyText | NotANumber | Number(value: int)

  /** The six pieces of state, with the names and order of their declarations. */
  datatype State = State(
    gameStarted: bool,
    gameOver: bool,
    paused: bool,
    targetNumber: int,
    userGuess: GuessValue,
    attempts: int)

  /** The values the six `useState` calls start from. */
  const Initial: State := State(false, false, false, 0, EmptyText, 0)

  /** A value returned by `Math.random()`: a number in [0, 1). */
  type Sample = u: real | 0.0 <= u < 1.0

  /** The highest number the game draws ("between 1 and 5"). */
  const MaxTarget: int := 5

  /** What the user can do: one intent per handler. `EditGuess` carries the
      result of `parseInt` on the input text, `None` standing for NaN. */
  datatype Intent =
    | StartGame
    | PauseGame
    | ResumeGame
    | SubmitGuess
    | TryAgain
    | EditGuess(parsed: Option<int>)

  /** `Math.floor(Math.random() * 5) + 1`: every draw lies in 1..5. */
  function DrawTarget(u: Sample): (n: int)
    ensures 1 <= n <= MaxTarget
  {
    (u * MaxTarget as real).Floor + 1
  }

  /** The test of `handleGuess`: a guess wins exactly when it is a number
      equal to the target, so the empty text and NaN never do. */
  function Wins(guess: GuessValue, target: int): (b: bool)
    ensures b <==> guess == Number(target)
  {
    match guess
    case Number(n) => n == target
    case _ => false
  }

  /** What `handleUserGuessChange` stores: the integer `parseInt` found, or NaN. */
  function StoredGuess(parsed: Option<int>): (g: GuessValue)
    ensures g != EmptyText
    ensures g.Number? <==> parsed.Some?
    ensures parsed.Some? ==> g == Number(parsed.value)
  {
    match parsed
    case Some(n) => Number(n)
    case None => NotANumber
  }

  /** The state a handler leaves behind, before the effect runs. No handler
      assigns the target; `attempts` is only reset or raised by one; only a
      winning guess ends a game; only Try Again and typing change the guess;
      only Start, Pause and Resume change `paused`. */
  function Handle(s: State, i: Intent): (r: State)
    ensures r.targetNumber == s.targetNumber
    ensures r.attempts == 0 || r.attempts == s.attempts || r.attempts == s.attempts + 1
    ensures r.gameOver && !s.gameOver ==> i == SubmitGuess && s.userGuess == Number(s.targetNumber)
    ensures r.userGuess != s.userGuess ==> i == TryAgain || i.EditGuess?
    ensures r.paused != s.paused ==> i == StartGame || i == PauseGame || i == ResumeGame
  {
    match i
    case StartGame =>
      s.(gameStarted := true, gameOver := false, attempts := 0, paused := false)
    case PauseGame =>
      s.(paused := true)
    case ResumeGame =>
      s.(paused := false)
    case SubmitGuess =>
      if Wins(s.userGuess, s.targetNumber) then s.(gameOver := true)
      else s.(attempts := s.attempts + 1)
    case TryAgain =>
      s.(gameStarted := false, gameOver := false, userGuess := EmptyText, attempts := 0)
    case EditGuess(parsed) =>
      s.(userGuess := StoredGuess(parsed))
  }

  /** The `useEffect` on `[gameStarted, paused]`: it runs when either
      dependency differs from its value at the previous render, and then
      draws a new target if the game is running and not paused. */
  function TargetEffect(prevStarted: bool, prevPaused: bool, s: State, u: Sample): (r: State)
    ensures r.(targetNumber := s.targetNumber) == s
    ensures (s.gameStarted, s.paused) == (prevStarted, prevPaused) ==> r == s
    ensures r.targetNumber != s.targetNumber ==>
              r.gameStarted && !r.paused && 1 <= r.targetNumber <= MaxTarget
  {
    if (s.gameStarted, s.paused) != (prevStarted, prevPaused) && s.gameStarted && !s.paused
    then s.(targetNumber := DrawTarget(u))
    else s
  }

  /** One user action: the handler, then the effect against the dependencies
      of the render the action was dispatched from. Apart from the target the
      action leaves what its handler leaves, and only Start Game and Resume
      can give the target a new value, always one in 1..5. */
  function Step(s: State, i: Intent, u: Sample): (r: State)
    ensures r.(targetNumber := s.targetNumber) == Handle(s, i)
    ensures r.targetNumber != s.targetNumber ==>
              (i == StartGame || i == ResumeGame) && 1 <= r.targetNumber <= MaxTarget
  {
    TargetEffect(s.gameStarted, s.paused, Handle(s, i), u)
  }

  /** Whether the rendered markup offers the control that dispatches `i`:
      Start Game when not started; while started and not over, Resume if
      paused and Pause otherwise, and the guess input and Guess button in
      either case; Try Again when over. */
  function Offered(s: State, i: Intent): (b: bool)
    ensures b && i != StartGame && i != TryAgain ==> s.gameStarted && !s.gameOver
    ensures b && i == StartGame ==> !s.gameStarted
    ensures b && i == TryAgain ==> s.gameOver
  {
    match i
    case StartGame => !s.gameStarted
    case PauseGame => s.gameStarted && !s.gameOver && !s.paused
    case ResumeGame => s.gameStarted && !s.gameOver && s.paused
    case SubmitGuess => s.gameStarted && !s.gameOver
    case EditGuess(_) => s.gameStarted && !s.gameOver
    case TryAgain => s.gameOver
  }
}
