/** The feedback a guess earns against a secret (mastermind.py,
    give_feedback). Every slot shows the guessed digit on an exact match,
    '_' when the digit occurs anywhere else in the secret and ' ' otherwise.
    The '_' mark tests membership only: it is not limited by how many times
    the digit occurs in the secret, unlike the scoring of classic Mastermind. */
module Feedback {
  import opened Codes

  const Blank: char := ' '
  const Present: char := '_'

  /** The mark a slot shows when the guess has digit g where the secret has s. */
  function Mark(secret: seq<char>, g: char, s: char): char {
    if g == s then g else if g in secret then Present else Blank
  }

  /** The five marks of the feedback, position by position. */
  function Marks(secret: seq<char>, guess: seq<char>): (m: seq<char>)
    requires |secret| == |guess|
    ensures |m| == |guess|
  {
    seq(|guess|, i requires 0 <= i < |guess| => Mark(secret, guess[i], secret[i]))
  }

  /** The number of positions where guess and secret agree. */
  function ExactCount(secret: seq<char>, guess: seq<char>): (r: nat)
    requires |secret| == |guess|
    ensures r <= |guess|
  {
    if guess == [] then 0
    else
      var n := |guess| - 1;
      ExactCount(secret[..n], guess[..n]) + (if guess[n] == secret[n] then 1 else 0)
  }

  /** The guessed digits that occur nowhere in the secret, in position
      order and with repeats. */
  function WrongDigits(secret: seq<char>, guess: seq<char>): (r: seq<char>)
    ensures |r| <= |guess|
  {
    if guess == [] then []
    else
      var n := |guess| - 1;
      WrongDigits(secret, guess[..n]) + (if guess[n] !in secret then [guess[n]] else [])
  }

  /** Scores a guess: two passes over the five positions, the first
      filling exact matches, counting them and collecting the wrong digits,
      the second marking the remaining blank slots whose digit occurs in the
      secret. */
  method GiveFeedback(secret: seq<char>, guess: seq<char>)
      returns (feedback: seq<char>, wrong: seq<char>, correct: nat)
    requires |secret| == Length && |guess| == Length
    ensures feedback == Marks(secret, guess)
    ensures wrong == WrongDigits(secret, guess)
    ensures correct == ExactCount(secret, guess)
  {
    var marks := new char[Length](_ => Blank);
    wrong := [];
    correct := 0;
    for i := 0 to Length
      invariant correct == ExactCount(secret[..i], guess[..i])
      invariant wrong == WrongDigits(secret, guess[..i])
      invariant forall k :: 0 <= k < i ==> marks[k] == (if guess[k] == secret[k] then guess[k] else Blank)
      invariant forall k :: i <= k < Length ==> marks[k] == Blank
    {
      CountStep(secret, guess, i);
      if guess[i] == secret[i] {
        marks[i] := guess[i];
        correct := correct + 1;
      } else if guess[i] !in secret {
        wrong := wrong + [guess[i]];
      }
    }
    WholePrefix(secret, guess);
    for i := 0 to Length
      invariant forall k :: 0 <= k < i ==> marks[k] == Mark(secret, guess[k], secret[k])
      invariant forall k :: i <= k < Length ==> marks[k] == (if guess[k] == secret[k] then guess[k] else Blank)
    {
      if guess[i] != secret[i] && guess[i] in secret {
        if marks[i] == Blank {
          marks[i] := Present;
        }
      }
    }
    feedback := marks[..];
    assert forall k :: 0 <= k < Length ==> feedback[k] == Marks(secret, guess)[k];
  }

  /** The first loop's counts, once it has covered every position. */
  lemma WholePrefix(secret: seq<char>, guess: seq<char>)
    requires |secret| == |guess|
    ensures ExactCount(secret[..|guess|], guess[..|guess|]) == ExactCount(secret, guess)
    ensures WrongDigits(secret, guess[..|guess|]) == WrongDigits(secret, guess)
  {
    assert secret[..|guess|] == secret && guess[..|guess|] == guess;
  }

  /** How the counts grow when the first loop moves past position i. */
  lemma CountStep(secret: seq<char>, guess: seq<char>, i: nat)
    requires |secret| == |guess| && i < |guess|
    ensures ExactCount(secret[..i + 1], guess[..i + 1])
         == ExactCount(secret[..i], guess[..i]) + (if guess[i] == secret[i] then 1 else 0)
    ensures WrongDigits(secret, guess[..i + 1])
         == WrongDigits(secret, guess[..i]) + (if guess[i] !in secret then [guess[i]] else [])
  {
    assert secret[..i + 1][..i] == secret[..i];
    assert guess[..i + 1][..i] == guess[..i];
  }

  /** The positions where guess and secret agree. */
  ghost function MatchPositions(secret: seq<char>, guess: seq<char>): set<nat>
    requires |secret| == |guess|
  {
    set i: nat | i < |guess| && guess[i] == secret[i]
  }

  /** The exact count is the number of agreeing positions. */
  lemma {:induction false} ExactCountIsMatches(secret: seq<char>, guess: seq<char>)
    requires |secret| == |guess|
    ensures ExactCount(secret, guess) == |MatchPositions(secret, guess)|
  {
    if guess != [] {
      var n := |guess| - 1;
      ExactCountIsMatches(secret[..n], guess[..n]);
      var before := MatchPositions(secret[..n], guess[..n]);
      if guess[n] == secret[n] {
        assert MatchPositions(secret, guess) == before + {n};
      } else {
        assert MatchPositions(secret, guess) == before;
      }
    }
  }

  /** A guess scores the full count exactly when it equals the secret; in
      particular scoring a code against itself gives 5. */
  lemma {:induction false} FullCountIffEqual(secret: seq<char>, guess: seq<char>)
    requires |secret| == |guess|
    ensures ExactCount(secret, guess) == |guess| <==> guess == secret
  {
    if guess != [] {
      var n := |guess| - 1;
      FullCountIffEqual(secret[..n], guess[..n]);
      assert ExactCount(secret[..n], guess[..n]) <= n;
      if guess == secret {
        assert guess[..n] == secret[..n];
      }
      if ExactCount(secret, guess) == |guess| {
        assert guess[..n] == secret[..n] && guess[n] == secret[n];
        assert guess == guess[..n] + [guess[n]];
        assert secret == secret[..n] + [secret[n]];
      }
    }
  }

  /** What each slot of the feedback shows, for digit codes: the digit iff
      it is an exact match, '_' iff it is not but the digit occurs somewhere
      in the secret, whatever its multiplicity there, and ' ' otherwise. */
  lemma MarksAt(secret: seq<char>, guess: seq<char>, i: nat)
    requires IsCode(secret) && IsCode(guess) && i < Length
    ensures Marks(secret, guess)[i] == guess[i] <==> guess[i] == secret[i]
    ensures Marks(secret, guess)[i] == Present <==> guess[i] != secret[i] && guess[i] in secret
    ensures Marks(secret, guess)[i] == Blank <==> guess[i] !in secret
  {
  }

  /** A digit is reported wrong as often as the guess holds it when the
      secret lacks it, and never otherwise. */
  lemma {:induction false} WrongDigitsCount(secret: seq<char>, guess: seq<char>, x: char)
    ensures multiset(WrongDigits(secret, guess))[x] == if x in secret then 0 else multiset(guess)[x]
  {
    if guess != [] {
      var n := |guess| - 1;
      var init, last := guess[..n], guess[n];
      WrongDigitsCount(secret, init, x);
      assert guess == init + [last];
      var wrongInit := WrongDigits(secret, init);
      var wrongLast: seq<char> := if last in secret then [] else [last];
      assert WrongDigits(secret, guess) == wrongInit + wrongLast;
      assert multiset(WrongDigits(secret, guess))[x] == multiset(wrongInit)[x] + multiset(wrongLast)[x];
      assert multiset(guess)[x] == multiset(init)[x] + multiset([last])[x];
    }
  }

  /** The wrong digits of a guess are those of its first part followed by
      those of the rest: they are listed in position order. */
  lemma {:induction false} WrongDigitsAppend(secret: seq<char>, first: seq<char>, rest: seq<char>)
    ensures WrongDigits(secret, first + rest) == WrongDigits(secret, first) + WrongDigits(secret, rest)
  {
    if rest == [] {
      assert first + rest == first;
    } else {
      var n := |rest| - 1;
      WrongDigitsAppend(secret, first, rest[..n]);
      assert (first + rest)[..|first| + n] == first + rest[..n];
    }
  }

  /** No position is both an exact match and a wrong digit. */
  lemma {:induction false} WrongAndExactFit(secret: seq<char>, guess: seq<char>)
    requires |secret| == |guess|
    ensures |WrongDigits(secret, guess)| + ExactCount(secret, guess) <= |guess|
  {
    if guess != [] {
      var n := |guess| - 1;
      WrongAndExactFit(secret[..n], guess[..n]);
      WrongDigitsSecretPrefix(secret, secret[..n], guess[..n]);
      assert secret[n] in secret;
    }
  }

  /** Removing digits from the secret can only add wrong digits. */
  lemma {:induction false} WrongDigitsSecretPrefix(secret: seq<char>, part: seq<char>, guess: seq<char>)
    requires forall x :: x in part ==> x in secret
    ensures |WrongDigits(secret, guess)| <= |WrongDigits(part, guess)|
  {
    if guess != [] {
      WrongDigitsSecretPrefix(secret, part, guess[..|guess| - 1]);
    }
  }

  /** A digit that occurs once in the secret earns a mark on every
      position of a guess that repeats it: one exact match and four '_'. */
  lemma PresentNotCountLimited()
    ensures Marks("12345", "11111") == "1____"
    ensures ExactCount("12345", "11111") == 1
  {
    assert "12345"[..4] == "1234" && "11111"[..4] == "1111";
    assert "1234"[..3] == "123" && "1111"[..3] == "111";
    assert "123"[..2] == "12" && "111"[..2] == "11";
    assert "12"[..1] == "1" && "11"[..1] == "1";
  }

  /** A repeated secret digit: '1' is exact at position 0 and still marks
      position 2, and the '2' at position 1 is marked present. */
  lemma RepeatedSecretDigit()
    ensures Marks("11234", "12134") == "1__34"
    ensures WrongDigits("11234", "12134") == []
  {
    assert "12134"[..4] == "1213" && "1213"[..3] == "121";
    assert "121"[..2] == "12" && "12"[..1] == "1" && "1"[..0] == [];
  }

  /** A guess sharing no digit with the secret: every slot blank, no
      exact match, and every guessed digit reported wrong, in order. */
  lemma NoCommonDigit(secret: seq<char>, guess: seq<char>)
    requires |secret| == |guess|
    requires forall i :: 0 <= i < |guess| ==> guess[i] !in secret
    ensures Marks(secret, guess) == seq(|guess|, _ => Blank)
    ensures ExactCount(secret, guess) == 0
    ensures WrongDigits(secret, guess) == guess
  {
    forall i | 0 <= i < |guess|
      ensures guess[i] != secret[i]
    {
      assert secret[i] in secret;
    }
    ExactCountIsMatches(secret, guess);
    assert MatchPositions(secret, guess) == {};
    WrongDigitsSame(secret, guess);
  }

  /** The wrong digits of a guess none of whose digits is in the secret. */
  lemma {:induction false} WrongDigitsSame(secret: seq<char>, guess: seq<char>)
    requires forall i :: 0 <= i < |guess| ==> guess[i] !in secret
    ensures WrongDigits(secret, guess) == guess
  {
    if guess != [] {
      var n := |guess| - 1;
      WrongDigitsSame(secret, guess[..n]);
      assert guess == guess[..n] + [guess[n]];
    }
  }

  /** Secret 12345 against guess 67890: all blank, all five digits wrong. */
  lemma NoCommonDigitExample()
    ensures Marks("12345", "67890") == "     "
    ensures ExactCount("12345", "67890") == 0
    ensures WrongDigits("12345", "67890") == "67890"
  {
    NoCommonDigit("12345", "67890");
  }
}
