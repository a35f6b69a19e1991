/** Codes: the five-digit secrets and guesses of the game, and the shape
    check both prompts apply to the whitespace-separated tokens a player
    types (mastermind.py, get_valid_guess and get_valid_secret_number). */
module Codes {

  datatype Option<T> = None | Some(value: T)

  /** Number of positions in every secret and guess. */
  const Length: nat := 5

  predicate IsDigit(c: char) {
    '0' <= c <= '9'
  }

  /** A code: exactly five digit characters. */
  predicate IsCode(c: seq<char>) {
    |c| == Length && forall i :: 0 <= i < |c| ==> IsDigit(c[i])
  }

  /** The test both prompts apply: five tokens, each a single digit. */
  predicate IsValidTokens(tokens: seq<seq<char>>) {
    |tokens| == Length && forall i :: 0 <= i < |tokens| ==> |tokens[i]| == 1 && IsDigit(tokens[i][0])
  }

  /** The tokens a player types for a code: one token per digit. */
  function Tokens(c: seq<char>): seq<seq<char>> {
    seq(|c|, i requires 0 <= i < |c| => [c[i]])
  }

  /** Accepts the tokens iff they pass the shape check; the accepted code
      is the one whose tokens were typed. */
  function ParseCode(tokens: seq<seq<char>>): (r: Option<seq<char>>)
    ensures r.Some? <==> IsValidTokens(tokens)
    ensures r.Some? ==> IsCode(r.value) && Tokens(r.value) == tokens
  {
    if IsValidTokens(tokens) then
      var c := seq(Length, i requires 0 <= i < Length => tokens[i][0]);
      assert forall i :: 0 <= i < Length ==> tokens[i] == [c[i]];
      Some(c)
    else
      None
  }

  /** Typing the digits of any code, one per token, is accepted and
      yields that code back. */
  lemma ParseTokens(c: seq<char>)
    requires IsCode(c)
    ensures ParseCode(Tokens(c)) == Some(c)
  {
    var r := ParseCode(Tokens(c));
    assert r.Some?;
    assert r.value == c;
  }

  /** Inputs the prompts reject: a wrong token count, a token of two
      characters, a non-digit token. */
  lemma RejectedShapes()
    ensures ParseCode([['1'], ['2'], ['3'], ['4']]).None?
    ensures ParseCode([['1'], ['2'], ['3'], ['4'], ['5'], ['6']]).None?
    ensures ParseCode([['1'], ['2'], ['3'], ['4'], ['5', '6']]).None?
    ensures ParseCode([['1'], ['2'], ['3'], ['4'], ['x']]).None?
  {
    assert |[['1'], ['2'], ['3'], ['4'], ['5', '6']][4]| == 2;
    assert !IsDigit([['1'], ['2'], ['3'], ['4'], ['x']][4][0]);
  }
}
