/** The guessing engine (`NumberGuessGame` in brackixos.py).

    The player has ten attempts to find a secret number between 1 and 100.
    An entry that is not a number or is out of range is answered without
    using an attempt; every other guess uses one and is answered with
    "correct", "too low" or "too high", and the tenth wrong guess ends the
    game. A finished game disables (and has cleared) the entry box. */
module NumberGuess {

  const Lowest := 1
  const Highest := 100
  const MaxAttempts := 10

  /** The result of `int(text)`: `None` when the text is not a number. */
  datatype Option<T> = None | Some(value: T)

  /** The answer `check_guess` writes into the feedback label. */
  datatype Feedback =
    | InvalidNumber
    | OutOfRange
    | Correct(attempts: nat)
    | Lost(target: int)
    | TooLow
    | TooHigh

  predicate InRange(n: int) {
    Lowest <= n <= Highest
  }

  class NumberGuessGame {
    var target: int
    var attempts: nat
    /** `guess_input.isEnabled()`. */
    var inputEnabled: bool

    /** The secret is in range and, while the box accepts input, fewer
        than ten attempts are used. */
    ghost predicate Valid()
      reads this
    {
      InRange(target) && attempts <= MaxAttempts &&
      (inputEnabled ==> attempts < MaxAttempts)
    }

    /** A new game; `secret` is the `random.randint(1, 100)` draw. */
    constructor (secret: int)
      requires InRange(secret)
      ensures Valid() && target == secret && attempts == 0 && inputEnabled
    {
      target := secret;
      attempts := 0;
      inputEnabled := true;
    }

    /** `check_guess` on the parsed entry. A disabled box was cleared and
        cannot be typed into, so its entry is empty. */
    method CheckGuess(entry: Option<int>) returns (feedback: Feedback)
      requires Valid()
      requires !inputEnabled ==> entry == None
      modifies this`attempts, this`inputEnabled
      ensures Valid()
      ensures match entry
        case None =>
          feedback == InvalidNumber && unchanged(this)
        case Some(guess) =>
          if !InRange(guess) then
            feedback == OutOfRange && unchanged(this)
          else
            attempts == old(attempts) + 1 && target == old(target) &&
            feedback == Answer(guess, target, attempts) &&
            inputEnabled == !(feedback.Correct? || feedback.Lost?)
    {
      if entry.None? {
        return InvalidNumber;
      }
      var guess := entry.value;
      if guess < Lowest || guess > Highest {
        return OutOfRange;
      }
      attempts := attempts + 1;
      if guess == target {
        feedback := Correct(attempts);
        inputEnabled := false;
      } else if attempts >= MaxAttempts {
        feedback := Lost(target);
        inputEnabled := false;
      } else if guess < target {
        feedback := TooLow;
      } else {
        feedback := TooHigh;
      }
    }

    /** `reset_game`: a new secret `secret`, no attempts, the box enabled. */
    method ResetGame(secret: int)
      requires InRange(secret)
      modifies this
      ensures Valid() && target == secret && attempts == 0 && inputEnabled
    {
      target := secret;
      attempts := 0;
      inputEnabled := true;
    }
  }

  /** Which answer a guess in range gets on attempt `attempt` (1-based):
      a hint always points towards the secret, and the game ends exactly on
      the right guess or on a wrong tenth one. */
  function Answer(guess: int, target: int, attempt: nat): (f: Feedback)
    requires InRange(guess)
    ensures f == TooLow ==> guess < target
    ensures f == TooHigh ==> guess > target
    ensures f.Correct? <==> guess == target
    ensures f.Lost? <==> guess != target && attempt >= MaxAttempts
    ensures guess != target && attempt < MaxAttempts ==>
      (f == TooLow <==> guess < target) && (f == TooHigh <==> guess > target)
  {
    if guess == target then Correct(attempt)
    else if attempt >= MaxAttempts then Lost(target)
    else if guess < target then TooLow
    else TooHigh
  }
}
