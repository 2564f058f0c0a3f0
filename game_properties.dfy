/**
 * What the NumberGuessing component promises: the effect of each action,
 * the invariants kept over every sequence of actions the rendered controls
 * allow, the attempt counter as a count over that sequence, and the game's
 * phases as a state machine.
 */
module GameProperties {
  import opened GameState

  /** One action together with the value `Math.random()` would return if
      the effect samples during it. */
  datatype Move = Move(intent: Intent, draw: Sample)

  /** The state after `moves`, applied from `s` in order. */
  function Run(s: State, moves: seq<Move>): State
    decreases |moves|
  {
    if moves == [] then s
    else
      var last := moves[|moves| - 1];
      Step(Run(s, moves[..|moves| - 1]), last.intent, last.draw)
  }

  /** Every move of `moves` uses a control the markup offers at that point. */
  predicate Legal(s: State, moves: seq<Move>)
    decreases |moves|
  {
    moves == [] ||
    (Legal(s, moves[..|moves| - 1]) &&
     Offered(Run(s, moves[..|moves| - 1]), moves[|moves| - 1].intent))
  }

  /** The number of Guess actions in `moves`. */
  function GuessCount(moves: seq<Move>): (n: nat)
    ensures n <= |moves|
    decreases |moves|
  {
    if moves == [] then 0
    else GuessCount(moves[..|moves| - 1]) + (if moves[|moves| - 1].intent == SubmitGuess then 1 else 0)
  }

  /** Reference count for `attempts`: the number of Guess actions that did
      not win, counted since the most recent Start Game or Try Again. It never
      exceeds the number of Guess actions, and a run whose last action is
      Start Game or Try Again has none. */
  function MissesSinceReset(s: State, moves: seq<Move>): (n: nat)
    ensures n <= GuessCount(moves)
    ensures moves != [] && moves[|moves| - 1].intent in {StartGame, TryAgain} ==> n == 0
    decreases |moves|
  {
    if moves == [] then 0
    else
      var before := moves[..|moves| - 1];
      var prior := Run(s, before);
      match moves[|moves| - 1].intent
      case StartGame => 0
      case TryAgain => 0
      case SubmitGuess =>
        MissesSinceReset(s, before) + (if Wins(prior.userGuess, prior.targetNumber) then 0 else 1)
      case _ => MissesSinceReset(s, before)
  }

  /** What holds in every state reachable from the initial one. */
  ghost predicate Inv(s: State)
  {
    && (s.gameOver ==> s.gameStarted)
    && s.attempts >= 0
    && (!s.gameStarted ==> s.attempts == 0)
    && (s.gameStarted ==> 1 <= s.targetNumber <= MaxTarget)
    && (s.gameOver ==> s.userGuess == Number(s.targetNumber))
  }

  // ---------------------------------------------------------------------
  // The random draw

  /** Each value 1..5 is drawn exactly for a fifth of [0, 1): the draw is
      uniform over the announced range. */
  lemma DrawTargetPreimage(u: Sample, n: int)
    ensures DrawTarget(u) == n <==>
            (n - 1) as real / MaxTarget as real <= u < n as real / MaxTarget as real
  {
  }

  // ---------------------------------------------------------------------
  // The gating of the controls

  /** The Guess button and the guess input show exactly when one of Pause and
      Resume shows, so a guess is taken while paused; Pause and Resume never
      show together. */
  lemma GuessOfferedWithPauseOrResume(s: State, parsed: Option<int>)
    ensures Offered(s, SubmitGuess) <==> Offered(s, PauseGame) || Offered(s, ResumeGame)
    ensures Offered(s, EditGuess(parsed)) <==> Offered(s, SubmitGuess)
    ensures !(Offered(s, PauseGame) && Offered(s, ResumeGame))
  {
  }

  // ---------------------------------------------------------------------
  // One action at a time (each lemma covers the handler and the effect)

  /** Start Game, from a state that offers it: the game runs from a fresh
      target in 1..5 with no attempts; the guess text is kept. */
  lemma StartGameEffect(s: State, u: Sample)
    requires Offered(s, StartGame)
    ensures Step(s, StartGame, u) ==
            s.(gameStarted := true, gameOver := false, paused := false,
               attempts := 0, targetNumber := DrawTarget(u))
    ensures 1 <= Step(s, StartGame, u).targetNumber <= MaxTarget
  {
  }

  /** Guess: a win sets `gameOver` and nothing else; any other guess adds
      exactly one attempt and changes nothing else. The target is never
      re-drawn, and whether the game is paused plays no part. */
  lemma SubmitGuessEffect(s: State, u: Sample)
    ensures var r := Step(s, SubmitGuess, u);
            if s.userGuess == Number(s.targetNumber)
            then r == s.(gameOver := true)
            else r == s.(attempts := s.attempts + 1)
  {
  }

  /** A guess that is not a number (the initial empty text, or NaN) never
      ends the game and always counts as an attempt. */
  lemma NonNumberGuessIsMiss(s: State, u: Sample)
    requires !s.userGuess.Number?
    ensures Step(s, SubmitGuess, u).gameOver == s.gameOver
    ensures Step(s, SubmitGuess, u).attempts == s.attempts + 1
  {
  }

  /** Pause changes `paused` alone, and never re-draws the target. */
  lemma PauseGameEffect(s: State, u: Sample)
    ensures Step(s, PauseGame, u) == s.(paused := true)
  {
  }

  /** Resume clears `paused`; from a started, paused game it re-draws the
      target. */
  lemma ResumeGameEffect(s: State, u: Sample)
    ensures Step(s, ResumeGame, u) ==
            if s.gameStarted && s.paused
            then s.(paused := false, targetNumber := DrawTarget(u))
            else s.(paused := false)
  {
  }

  /** Try Again stops the game and clears the guess and the attempts; it
      keeps `paused` and the target, and draws nothing. */
  lemma TryAgainEffect(s: State, u: Sample)
    ensures Step(s, TryAgain, u) ==
            s.(gameStarted := false, gameOver := false, userGuess := EmptyText, attempts := 0)
  {
  }

  /** Editing the guess stores the parsed value and nothing else. */
  lemma EditGuessEffect(s: State, parsed: Option<int>, u: Sample)
    ensures Step(s, EditGuess(parsed), u) == s.(userGuess := StoredGuess(parsed))
  {
  }

  /** Pause then Resume gives back the state paused from, except that the
      target has been drawn again. */
  lemma PauseThenResume(s: State, u1: Sample, u2: Sample)
    requires Offered(s, PauseGame)
    ensures Step(Step(s, PauseGame, u1), ResumeGame, u2) == s.(targetNumber := DrawTarget(u2))
  {
  }

  // ---------------------------------------------------------------------
  // Invariants over every legal sequence of actions

  lemma InitialInv()
    ensures Inv(Initial)
  {
  }

  /** Every offered action keeps the invariant. */
  lemma StepKeepsInv(s: State, i: Intent, u: Sample)
    requires Inv(s) && Offered(s, i)
    ensures Inv(Step(s, i, u))
  {
  }

  /** The invariant holds after any legal sequence of actions from the
      initial state. */
  lemma {:induction false} ReachableInv(moves: seq<Move>)
    requires Legal(Initial, moves)
    ensures Inv(Run(Initial, moves))
  {
    if moves == [] {
      InitialInv();
    } else {
      var before := moves[..|moves| - 1];
      var last := moves[|moves| - 1];
      ReachableInv(before);
      StepKeepsInv(Run(Initial, before), last.intent, last.draw);
    }
  }

  /** `attempts` is the number of guesses that missed since the last Start
      Game or Try Again (whatever the actions, offered or not). */
  lemma {:induction false} AttemptsCountMisses(s: State, moves: seq<Move>)
    requires s.attempts == 0
    ensures Run(s, moves).attempts == MissesSinceReset(s, moves)
  {
    if moves != [] {
      AttemptsCountMisses(s, moves[..|moves| - 1]);
    }
  }

  /** In every reachable state exactly one of the three panels shows: the
      Start Game button, the running-game controls, or the Try Again panel. */
  lemma {:induction false} ReachablePanelsPartition(moves: seq<Move>)
    requires Legal(Initial, moves)
    ensures var s := Run(Initial, moves);
            && (Offered(s, StartGame) || Offered(s, SubmitGuess) || Offered(s, TryAgain))
            && !(Offered(s, StartGame) && Offered(s, SubmitGuess))
            && !(Offered(s, StartGame) && Offered(s, TryAgain))
            && !(Offered(s, SubmitGuess) && Offered(s, TryAgain))
  {
    ReachableInv(moves);
  }

  /** A game that is over was won: the stored guess is the target, and the
      target lies in 1..5. */
  lemma {:induction false} ReachableWonMeansGuessed(moves: seq<Move>)
    requires Legal(Initial, moves)
    ensures var s := Run(Initial, moves);
            s.gameOver ==> s.userGuess == Number(s.targetNumber) && 1 <= s.targetNumber <= MaxTarget
  {
    ReachableInv(moves);
  }

  // ---------------------------------------------------------------------
  // The phases of the game

  datatype Phase = NotStarted | Playing | Paused | Won

  /** The phase a state shows. */
  function PhaseOf(s: State): Phase
  {
    if !s.gameStarted then NotStarted
    else if s.gameOver then Won
    else if s.paused then Paused
    else Playing
  }

  /** The phase machine the markup and the handlers implement. Besides
      start, pause, resume, a winning or missing guess and try again, a
      guess is taken while paused, and editing the guess keeps the phase. */
  predicate Transition(p: Phase, i: Intent, q: Phase)
  {
    match i
    case StartGame => p == NotStarted && q == Playing
    case PauseGame => p == Playing && q == Paused
    case ResumeGame => p == Paused && q == Playing
    case SubmitGuess => (p == Playing || p == Paused) && (q == p || q == Won)
    case EditGuess(_) => (p == Playing || p == Paused) && q == p
    case TryAgain => p == Won && q == NotStarted
  }

  /** The controls offered are exactly the edges leaving the current phase. */
  lemma OfferedMatchesPhase(s: State, i: Intent)
    requires Inv(s)
    ensures Offered(s, i) <==> exists q :: Transition(PhaseOf(s), i, q)
  {
    var p := PhaseOf(s);
    match i
    case StartGame => if Offered(s, i) { assert Transition(p, i, Playing); }
    case PauseGame => if Offered(s, i) { assert Transition(p, i, Paused); }
    case ResumeGame => if Offered(s, i) { assert Transition(p, i, Playing); }
    case SubmitGuess => if Offered(s, i) { assert Transition(p, i, p); }
    case EditGuess(_) => if Offered(s, i) { assert Transition(p, i, p); }
    case TryAgain => if Offered(s, i) { assert Transition(p, i, NotStarted); }
  }

  /** Every offered action moves along an edge of the phase machine, and a
      guess moves to Won exactly when it matches the target. */
  lemma StepFollowsTransition(s: State, i: Intent, u: Sample)
    requires Inv(s) && Offered(s, i)
    ensures Transition(PhaseOf(s), i, PhaseOf(Step(s, i, u)))
    ensures i == SubmitGuess ==>
              (PhaseOf(Step(s, i, u)) == Won <==> s.userGuess == Number(s.targetNumber))
  {
  }
}
