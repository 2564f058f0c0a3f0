/**
 * The NumberGuessing component as an object: its six state fields, one
 * method per handler, each assigning the fields its setters assign, the
 * target-sampling effect, and one user action (a handler followed by the
 * effect) as an atomic step.
 */
module NumberGuessingComponent {
  import opened GameState
  import opened GameProperties

  class NumberGuessing {
    var gameStarted: bool
    var gameOver: bool
    var paused: bool
    var targetNumber: int
    var userGuess: GuessValue
    var attempts: int

    /** The actions performed since the component was mounted. */
    ghost var history: seq<Move>

    /** The six fields as one value. */
    function Snapshot(): State
      reads this
    {
      State(gameStarted, gameOver, paused, targetNumber, userGuess, attempts)
    }

    /** The fields are those the actions in `history`, each offered when it
        was taken, lead to from the initial state. */
    ghost predicate Valid()
      reads this
    {
      Legal(Initial, history) && Snapshot() == Run(Initial, history)
    }

    /** Mounting: the `useState` initial values; the effect's first run
        draws nothing because the game has not started. */
    constructor ()
      ensures Valid() && history == []
      ensures Snapshot() == Initial
    {
      gameStarted, gameOver, paused := false, false, false;
      targetNumber, userGuess, attempts := 0, EmptyText, 0;
      history := [];
    }

    // The six handlers below change the fields as the source's handlers do
    // and leave `history` alone, so on their own they do not keep `Valid()`:
    // as in the component, where a handler runs only from a rendered control
    // and is followed by the effect, `Perform` is the entry that keeps it.

    method HandleStartGame()
      modifies this`gameStarted, this`gameOver, this`attempts, this`paused
      ensures Snapshot() == Handle(old(Snapshot()), StartGame)
    {
      gameStarted := true;
      gameOver := false;
      attempts := 0;
      paused := false;
    }

    method HandlePauseGame()
      modifies this`paused
      ensures Snapshot() == Handle(old(Snapshot()), PauseGame)
    {
      paused := true;
    }

    method HandleResumeGame()
      modifies this`paused
      ensures Snapshot() == Handle(old(Snapshot()), ResumeGame)
    {
      paused := false;
    }

    method HandleGuess()
      modifies this`gameOver, this`attempts
      ensures Snapshot() == Handle(old(Snapshot()), SubmitGuess)
    {
      if userGuess.Number? && userGuess.value == targetNumber {
        gameOver := true;
      } else {
        attempts := attempts + 1;
      }
    }

    method HandleTryAgain()
      modifies this`gameStarted, this`gameOver, this`userGuess, this`attempts
      ensures Snapshot() == Handle(old(Snapshot()), TryAgain)
    {
      gameStarted := false;
      gameOver := false;
      userGuess := EmptyText;
      attempts := 0;
    }

    method HandleUserGuessChange(parsed: Option<int>)
      modifies this`userGuess
      ensures Snapshot() == Handle(old(Snapshot()), EditGuess(parsed))
    {
      match parsed
      case Some(n) => userGuess := Number(n);
      case None => userGuess := NotANumber;
    }

    /** The effect after a render whose dependencies were `prevStarted` and
        `prevPaused` before it; `u` is what `Math.random()` returns. */
    method RunTargetEffect(prevStarted: bool, prevPaused: bool, u: Sample)
      modifies this`targetNumber
      ensures Snapshot() == TargetEffect(prevStarted, prevPaused, old(Snapshot()), u)
    {
      if (gameStarted != prevStarted || paused != prevPaused) && gameStarted && !paused {
        targetNumber := (u * 5.0).Floor + 1;
      }
    }

    /** One user action on an offered control: the handler, then the
        effect. Afterwards the invariants hold and `attempts` counts the
        missed guesses since the last Start Game or Try Again. */
    method Perform(i: Intent, u: Sample)
      requires Valid() && Offered(Snapshot(), i)
      modifies this
      ensures Valid() && history == old(history) + [Move(i, u)]
      ensures Snapshot() == Step(old(Snapshot()), i, u)
      ensures Inv(Snapshot())
      ensures attempts == MissesSinceReset(Initial, history)
    {
      var prevStarted, prevPaused := gameStarted, paused;
      match i {
        case StartGame => HandleStartGame();
        case PauseGame => HandlePauseGame();
        case ResumeGame => HandleResumeGame();
        case SubmitGuess => HandleGuess();
        case TryAgain => HandleTryAgain();
        case EditGuess(parsed) => HandleUserGuessChange(parsed);
      }
      RunTargetEffect(prevStarted, prevPaused, u);
      history := history + [Move(i, u)];
      assert history[..|history| - 1] == old(history);
      ReachableInv(history);
      AttemptsCountMisses(Initial, history);
    }
  }
}
