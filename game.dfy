/** The two-player game (mastermind.py, mastermind_multiplayer): both
    players set a secret, then player one guesses player two's secret and
    player two guesses player one's, in strict alternation, until a guess
    matches in all five positions or the player who just guessed chooses to
    exit. Either ending records a win for that player in the score ledger
    with that player's own guess count. */
module Game {
  import opened Codes
  import opened Feedback
  import opened Scores

  datatype Player = One | Two

  function Other(p: Player): Player {
    if p == One then Two else One
  }

  /** Who guesses the k-th guess of a game (counting from 0). */
  function GuesserAt(k: nat): Player {
    if k % 2 == 0 then One else Two
  }

  /** How many of the recorded guesses player p made. */
  function CountOf(guessers: seq<Player>, p: Player): (r: nat)
    ensures r <= |guessers|
  {
    if guessers == [] then 0
    else
      var n := |guessers| - 1;
      CountOf(guessers[..n], p) + (if guessers[n] == p then 1 else 0)
  }

  /** Strict alternation, player one first. */
  ghost predicate Alternates(guessers: seq<Player>) {
    forall k :: 0 <= k < |guessers| ==> guessers[k] == GuesserAt(k)
  }

  /** Where the game stands.
      AwaitingSecret(p): player p's secret is being entered;
      Guessing: the player on turn is to guess;
      Deciding: the player on turn has guessed without winning and is to
      choose between trying again and exiting;
      Won, Exited: the game is over, ended by the player on turn. */
  datatype Phase = AwaitingSecret(p: Player) | Guessing | Deciding | Won | Exited

  /** What a submitted guess produces: either the tokens fail the shape
      check, or the feedback line, the wrong digits and the exact count. */
  datatype GuessResult = Rejected | Scored(feedback: seq<char>, wrong: seq<char>, correct: nat)

  class Session {
    const name1: string
    const name2: string
    const ledger: Ledger
    var secret1: seq<char>
    var secret2: seq<char>
    var guesses1: nat
    var guesses2: nat
    var turn: Player
    var phase: Phase
    /** The player behind each guess made so far, in order. */
    ghost var guessers: seq<Player>

    function Name(p: Player): string
      reads this
    {
      if p == One then name1 else name2
    }

    function Guesses(p: Player): nat
      reads this
    {
      if p == One then guesses1 else guesses2
    }

    /** The secret player p guesses against: the opponent's. */
    function Target(p: Player): seq<char>
      reads this
    {
      if p == One then secret2 else secret1
    }

    ghost predicate Valid()
      reads this, ledger
    {
      && ledger.Valid()
      && (phase.AwaitingSecret? ==> guessers == [] && turn == One)
      && (phase == AwaitingSecret(Two) || !phase.AwaitingSecret? ==> IsCode(secret1))
      && (!phase.AwaitingSecret? ==> IsCode(secret2))
      && Alternates(guessers)
      && (phase == Guessing ==> turn == GuesserAt(|guessers|))
      && (phase.Deciding? || phase.Won? || phase.Exited? ==>
            |guessers| > 0 && turn == guessers[|guessers| - 1])
      // each counter is the number of guesses its player made
      && guesses1 == CountOf(guessers, One)
      && guesses2 == CountOf(guessers, Two)
    }

    /** The two names are read first; the secrets follow. */
    constructor (name1: string, name2: string, ledger: Ledger)
      requires ledger.Valid()
      ensures Valid()
      ensures this.name1 == name1 && this.name2 == name2 && this.ledger == ledger
      ensures phase == AwaitingSecret(One) && guesses1 == 0 && guesses2 == 0
    {
      this.name1 := name1;
      this.name2 := name2;
      this.ledger := ledger;
      secret1, secret2 := [], [];
      guesses1, guesses2 := 0, 0;
      turn := One;
      phase := AwaitingSecret(One);
      guessers := [];
    }

    /** One attempt at entering the awaited secret. Rejected tokens change
        nothing (the prompt asks again); accepted ones set that player's
        secret, and once both are set player one is to guess. */
    method SubmitSecret(tokens: seq<seq<char>>) returns (accepted: bool)
      requires Valid() && phase.AwaitingSecret?
      modifies this
      ensures Valid()
      ensures accepted <==> IsValidTokens(tokens)
      ensures !accepted ==> unchanged(this)
      ensures accepted && old(phase) == AwaitingSecret(One) ==>
        Some(secret1) == ParseCode(tokens) && secret2 == old(secret2) && phase == AwaitingSecret(Two)
      ensures accepted && old(phase) == AwaitingSecret(Two) ==>
        Some(secret2) == ParseCode(tokens) && secret1 == old(secret1) && phase == Guessing
      ensures turn == One && guesses1 == 0 && guesses2 == 0
    {
      var code := ParseCode(tokens);
      if code.None? {
        return false;
      }
      if phase == AwaitingSecret(One) {
        secret1 := code.value;
        phase := AwaitingSecret(Two);
      } else {
        secret2 := code.value;
        phase := Guessing;
      }
      accepted := true;
    }

    /** One attempt at a guess by the player on turn. Rejected tokens
        change nothing. An accepted guess is scored against the opponent's
        secret and adds one to the guesser's counter only; a full match
        ends the game and saves a win for the guesser with that counter,
        any other score leaves the guesser to choose whether to go on. */
    method SubmitGuess(tokens: seq<seq<char>>) returns (result: GuessResult)
      requires Valid() && phase == Guessing
      modifies this, ledger
      ensures Valid()
      ensures result.Rejected? <==> !IsValidTokens(tokens)
      ensures result.Rejected? ==> unchanged(this) && unchanged(ledger)
      ensures result.Scored? ==>
        var guess, target := ParseCode(tokens).value, old(Target(turn));
        && turn == old(turn)
        && guessers == old(guessers) + [turn]
        && result == Scored(Marks(target, guess), WrongDigits(target, guess), ExactCount(target, guess))
        && Guesses(turn) == old(Guesses(turn)) + 1
        && Guesses(Other(turn)) == old(Guesses(Other(turn)))
        && secret1 == old(secret1) && secret2 == old(secret2)
        && (result.correct == Length ==>
              phase == Won && ledger.scores == AfterSave(old(ledger.scores), Name(turn), Guesses(turn)))
        && (result.correct != Length ==> phase == Deciding && unchanged(ledger))
    {
      var code := ParseCode(tokens);
      if code.None? {
        return Rejected;
      }
      var target := Target(turn);
      assert IsCode(code.value) && IsCode(target);
      var feedback, wrong, correct := GiveFeedback(target, code.value);
      result := Scored(feedback, wrong, correct);
      GuessRecorded(guessers, turn);
      guessers := guessers + [turn];
      if turn == One {
        guesses1 := guesses1 + 1;
      } else {
        guesses2 := guesses2 + 1;
      }
      phase := if correct == Length then Won else Deciding;
      if correct == Length {
        ledger.SaveScore(Name(turn), Guesses(turn));
      }
    }

    /** The choice after a guess that did not win. Exiting ends the game
        and saves a win for the player who exits, with that player's own
        counter; otherwise the turn passes to the opponent. */
    method Decide(exit: bool)
      requires Valid() && phase == Deciding
      modifies this, ledger
      ensures Valid()
      ensures guesses1 == old(guesses1) && guesses2 == old(guesses2) && guessers == old(guessers)
      ensures secret1 == old(secret1) && secret2 == old(secret2)
      ensures exit ==>
        && phase == Exited && turn == old(turn)
        && ledger.scores == AfterSave(old(ledger.scores), Name(turn), Guesses(turn))
      ensures !exit ==> phase == Guessing && turn == Other(old(turn)) && unchanged(ledger)
    {
      if exit {
        phase := Exited;
        ledger.SaveScore(Name(turn), Guesses(turn));
      } else {
        NoDoubleTurn(|guessers| - 1);
        turn := Other(turn);
        phase := Guessing;
      }
    }
  }

  /** Under strict alternation player one has made the first, third, ...
      guess and player two the second, fourth, ..., so the two counters
      never differ by more than one. */
  lemma {:induction false} CountersAlternate(guessers: seq<Player>)
    requires Alternates(guessers)
    ensures CountOf(guessers, One) == (|guessers| + 1) / 2
    ensures CountOf(guessers, Two) == |guessers| / 2
  {
    if guessers != [] {
      var n := |guessers| - 1;
      assert Alternates(guessers[..n]);
      CountersAlternate(guessers[..n]);
    }
  }

  /** Recording the guess of the player on turn keeps the alternation and
      adds one to that player's count only. */
  lemma GuessRecorded(guessers: seq<Player>, p: Player)
    requires Alternates(guessers) && p == GuesserAt(|guessers|)
    ensures Alternates(guessers + [p])
    ensures CountOf(guessers + [p], p) == CountOf(guessers, p) + 1
    ensures CountOf(guessers + [p], Other(p)) == CountOf(guessers, Other(p))
  {
  }

  /** No player guesses twice in a row. */
  lemma NoDoubleTurn(k: nat)
    ensures GuesserAt(k + 1) == Other(GuesserAt(k))
  {
  }
}
