/** The high/low number-guessing game: the computer narrows a range
    [minValue, maxValue] by bisection while the player answers l (the number
    is higher than the guess), h (it is lower) or c (correct). The game state
    is a class whose fields the operations update in place; the guess
    selection is specified by pure functions that the loop methods are proved
    against. */
module Numbers {
  import opened Wrappers
  import opened Integers

  /** The player's reply to a presented guess. */
  datatype Answer = Low | High | Correct

  /** The lower midpoint of [lo, hi]: lo plus the floor of half the width.
      Dafny's `/` by 2 floors, like Python 2's `/` on ints. */
  function Midpoint(lo: int, hi: int): (m: int)
    ensures lo <= hi ==> lo <= m <= hi
    ensures lo <= hi ==> m - lo <= hi - m <= m - lo + 1
    ensures hi < lo ==> hi <= m < lo
    ensures hi < lo ==> m - hi <= lo - m <= m - hi + 1
  {
    lo + (hi - lo) / 2
  }

  /** Where the upward probe that starts at g stops: the first value that is
      unused or has reached max. The value at max is returned unchecked. */
  function HighGuess(guesses: seq<int>, max: int, g: int): (r: int)
    ensures g <= r
    ensures r >= max || r !in guesses
    ensures forall k :: g <= k < r ==> k < max && k in guesses
    decreases max - g
  {
    if g < max && g in guesses then HighGuess(guesses, max, g + 1) else g
  }

  /** Where the downward probe that starts at g stops: the first value that is
      unused or has reached min. The value at min is returned unchecked. */
  function LowGuess(guesses: seq<int>, min: int, g: int): (r: int)
    ensures r <= g
    ensures r <= min || r !in guesses
    ensures forall k :: r < k <= g ==> min < k && k in guesses
    decreases g - min
  {
    if g > min && g in guesses then LowGuess(guesses, min, g - 1) else g
  }

  /** An upward probe that starts at or below max stops at or below max. */
  lemma {:induction false} HighGuessAtMost(guesses: seq<int>, max: int, g: int)
    requires g <= max
    ensures HighGuess(guesses, max, g) <= max
    decreases max - g
  {
    if g < max && g in guesses {
      HighGuessAtMost(guesses, max, g + 1);
    }
  }

  /** A downward probe that starts at or above min stops at or above min. */
  lemma {:induction false} LowGuessAtLeast(guesses: seq<int>, min: int, g: int)
    requires min <= g
    ensures min <= LowGuess(guesses, min, g)
    decreases g - min
  {
    if g > min && g in guesses {
      LowGuessAtLeast(guesses, min, g - 1);
    }
  }

  /** The next guess: the midpoint if it is unused, otherwise the nearer of
      the two probe results, the higher one on a tie. */
  function NextGuess(min: int, max: int, guesses: seq<int>): (r: int)
    ensures r == Midpoint(min, max) <==> Midpoint(min, max) !in guesses
    ensures min <= max && Midpoint(min, max) !in guesses ==> min <= r <= max
  {
    var mid := Midpoint(min, max);
    if mid !in guesses then mid
    else
      var hi := HighGuess(guesses, max, mid + 1);
      var lo := LowGuess(guesses, min, mid - 1);
      if Abs(hi - mid) <= Abs(lo - mid) then hi else lo
  }

  /** When the midpoint is taken, the guess is a nearest value that the probes
      accept: it is unused or the bound where a probe stopped (or the first
      step past the midpoint), everything strictly nearer to the midpoint is
      taken, and the values on the other side up to the same distance were
      all taken and inside the bounds; a tie goes to the higher value. */
  lemma NextGuessNearest(min: int, max: int, guesses: seq<int>)
    requires Midpoint(min, max) in guesses
    ensures var mid, r := Midpoint(min, max), NextGuess(min, max, guesses);
      && r != mid
      && (mid < r ==> r >= max || r !in guesses)
      && (mid < r ==> r <= max || r == mid + 1)
      && (r < mid ==> r <= min || r !in guesses)
      && (r < mid ==> min <= r || r == mid - 1)
      && (forall k :: k != mid && Abs(k - mid) < Abs(r - mid) ==> k in guesses)
      && (r < mid ==> forall k :: mid < k <= mid + (mid - r) ==> k < max && k in guesses)
      && (mid < r ==> forall k :: mid - (r - mid) < k < mid ==> min < k && k in guesses)
  {
    var mid := Midpoint(min, max);
    var hi := HighGuess(guesses, max, mid + 1);
    var lo := LowGuess(guesses, min, mid - 1);
    if mid + 1 <= max {
      HighGuessAtMost(guesses, max, mid + 1);
    }
    if min <= mid - 1 {
      LowGuessAtLeast(guesses, min, mid - 1);
    }
    forall k | k != mid && Abs(k - mid) < Abs(NextGuess(min, max, guesses) - mid)
      ensures k in guesses
    {
      if k < mid {
        assert lo < k <= mid - 1;
      } else {
        assert mid + 1 <= k < hi;
      }
    }
  }

  /** Whenever the range holds at least two values, the guess lies inside
      it, even when the midpoint was taken and the probes ran. */
  lemma {:induction false} NextGuessInRange(min: int, max: int, guesses: seq<int>)
    requires min < max
    ensures min <= NextGuess(min, max, guesses) <= max
  {
    var mid := Midpoint(min, max);
    var hi := HighGuess(guesses, max, mid + 1);
    var lo := LowGuess(guesses, min, mid - 1);
    if mid + 1 <= max {
      HighGuessAtMost(guesses, max, mid + 1);
    }
    if min <= mid - 1 {
      LowGuessAtLeast(guesses, min, mid - 1);
    }
  }

  /** With a one-value range whose value was already guessed, both probes
      step straight off the midpoint and the tie picks the value above the
      range. */
  lemma SingletonRangeLeaves(m: int, guesses: seq<int>)
    requires m in guesses
    ensures NextGuess(m, m, guesses) == m + 1
  {
  }

  /** The guesses the unit tests pin down, on the range 1..10. */
  lemma NextGuessExamples()
    ensures NextGuess(1, 10, []) == 5
    ensures HighGuess([5], 10, 6) == 6 && LowGuess([5], 1, 4) == 4
    ensures NextGuess(1, 10, [5]) == 6
    ensures HighGuess([5, 6], 10, 6) == 7 && LowGuess([5, 6], 1, 4) == 4
    ensures NextGuess(1, 10, [5, 6]) == 4
    ensures HighGuess([3, 4, 5, 6], 10, 6) == 7 && LowGuess([3, 4, 5, 6], 1, 4) == 2
    ensures NextGuess(1, 10, [3, 4, 5, 6]) == 7
  {
    assert 3 in [3, 4, 5, 6] && 4 in [3, 4, 5, 6] && 2 !in [3, 4, 5, 6];
  }

  /** The probes stop at the bound without looking at it: on [1, 3] with 2
      and 3 already guessed, the high probe lands on 3 and wins the tie, so a
      value is guessed a second time. */
  lemma ProbeRepeatsBound()
    ensures NextGuess(1, 3, [2, 3]) == 3 && 3 in [2, 3]
  {
  }

  /** isBoundErrorCondition: the lower bound has passed the upper one. Python 2
      orders None below every int, so an unset max counts as passed. */
  predicate IsBoundErrorCondition(min: int, max: Option<int>)
  {
    match max
    case None => true
    case Some(m) => min > m
  }

  lemma BoundErrorExamples()
    ensures !IsBoundErrorCondition(10, Some(100))
    ensures IsBoundErrorCondition(10, Some(5))
  {
  }

  function Sum(s: seq<int>): int
  {
    if s == [] then 0 else s[0] + Sum(s[1..])
  }

  /** getAverageScore: the mean number of guesses per finished game, as an
      exact real (Python prints it as a float). */
  function AverageScore(scores: seq<int>): (avg: real)
    requires |scores| > 0
    ensures avg * (|scores| as real) == Sum(scores) as real
  {
    (Sum(scores) as real) / (|scores| as real)
  }

  lemma {:induction false} SumBounds(s: seq<int>, lo: int, hi: int)
    requires forall i :: 0 <= i < |s| ==> lo <= s[i] <= hi
    ensures |s| * lo <= Sum(s) <= |s| * hi
  {
    if s != [] {
      SumBounds(s[1..], lo, hi);
      assert |s| * lo == (|s| - 1) * lo + lo;
      assert |s| * hi == (|s| - 1) * hi + hi;
    }
  }

  lemma QuotientBetween(total: real, n: real, lo: real, hi: real)
    requires n > 0.0 && n * lo <= total <= n * hi
    ensures lo <= total / n <= hi
  {
    var q := total / n;
    assert (q - lo) * n == total - n * lo >= 0.0;
    assert (hi - q) * n == n * hi - total >= 0.0;
  }

  /** The average lies between the smallest and the largest score. */
  lemma AverageWithinBounds(scores: seq<int>, lo: int, hi: int)
    requires |scores| > 0
    requires forall i :: 0 <= i < |scores| ==> lo <= scores[i] <= hi
    ensures lo as real <= AverageScore(scores) <= hi as real
  {
    SumBounds(scores, lo, hi);
    var n := |scores|;
    assert (n * lo) as real == (n as real) * (lo as real);
    assert (n * hi) as real == (n as real) * (hi as real);
    QuotientBetween(Sum(scores) as real, n as real, lo as real, hi as real);
  }

  lemma AverageScoreExample()
    ensures AverageScore([2, 5]) == 3.5
  {
    assert Sum([2, 5]) == 7;
  }

  /** With no earlier guess inside [min, max] the midpoint is free, so the
      probes never run. */
  lemma ClearRangeGuessIsMidpoint(min: int, max: int, guesses: seq<int>)
    requires min <= max || guesses == []
    requires forall g :: g in guesses ==> g < min || max < g
    ensures NextGuess(min, max, guesses) == Midpoint(min, max)
  {
  }

  /** Every answer to a guess in a range of two or more values makes
      progress: high moves max strictly down, low moves min strictly up, and
      either way the range gets strictly narrower. */
  lemma AnswerNarrows(min: int, max: int, guesses: seq<int>)
    requires min < max
    ensures var g := NextGuess(min, max, guesses);
      && g - 1 < max && (g - 1) - min < max - min
      && min < g + 1 && max - (g + 1) < max - min
  {
    NextGuessInRange(min, max, guesses);
  }

  /** With no earlier guess inside a non-empty range, the guess is the
      midpoint, and either answer leaves at most half of the range (rounded
      down): the game ends within a logarithmic number of rounds. */
  lemma ClearRangeAnswerHalves(min: int, max: int, guesses: seq<int>)
    requires min <= max
    requires forall g :: g in guesses ==> g < min || max < g
    ensures var g := NextGuess(min, max, guesses);
      && (g - 1) - min + 1 <= (max - min + 1) / 2
      && max - (g + 1) + 1 <= (max - min + 1) / 2
  {
    ClearRangeGuessIsMidpoint(min, max, guesses);
  }

  /** NumberGame: the range, this game's guesses, the scores of the finished
      games and the in-progress flag. */
  class Game {
    var scores: seq<int>
    var minValue: int
    var maxValue: Option<int>
    var startMaxValue: Option<int>
    var guesses: seq<int>
    var inProgress: bool

    /** What every round keeps, whatever the player answers (an answer that
        contradicts an earlier one empties the range and the bound check
        ends the game): while a game runs with max set, the range is
        non-empty once something was guessed, and no earlier guess lies in
        [min, max]. */
    ghost predicate PlayInvariant()
      reads this
    {
      inProgress && maxValue.Some? ==>
        && (minValue <= maxValue.value || guesses == [])
        && forall g :: g in guesses ==> g < minValue || maxValue.value < g
    }

    constructor()
      ensures scores == [] && minValue == 1 && maxValue == None
      ensures startMaxValue == None && guesses == [] && !inProgress
    {
      scores := [];
      minValue := 1;
      maxValue := None;
      startMaxValue := None;
      guesses := [];
      inProgress := false;
    }

    method SetMinValue(value: int)
      modifies this`minValue
      ensures minValue == value
    {
      minValue := value;
    }

    method SetMaxValue(value: Option<int>)
      modifies this`maxValue
      ensures maxValue == value
    {
      maxValue := value;
    }

    method ClearGuesses()
      modifies this`guesses
      ensures guesses == []
    {
      guesses := [];
    }

    method AddGuess(guess: int)
      modifies this`guesses
      ensures guesses == old(guesses) + [guess]
    {
      guesses := guesses + [guess];
    }

    /** Starts a game: the range becomes [1, unset], the guesses are cleared;
        the scores and the starting max survive. */
    method Reset()
      modifies this`minValue, this`maxValue, this`guesses, this`inProgress
      ensures minValue == 1 && maxValue == None && guesses == [] && inProgress
      ensures scores == old(scores) && startMaxValue == old(startMaxValue)
      ensures PlayInvariant()
    {
      SetMinValue(1);
      SetMaxValue(None);
      ClearGuesses();
      inProgress := true;
    }

    /** The state set-up of play before its loop: reset, take the number the
        player entered when no (non-zero) starting max is stored, and open
        the range up to the starting max. The prompt only accepts a non-zero
        integer. */
    method StartPlay(entered: int)
      requires entered != 0
      modifies this`minValue, this`maxValue, this`startMaxValue, this`guesses, this`inProgress
      ensures startMaxValue ==
        (if old(startMaxValue) == None || old(startMaxValue) == Some(0) then Some(entered)
         else old(startMaxValue))
      ensures minValue == 1 && maxValue == startMaxValue && guesses == [] && inProgress
      ensures scores == old(scores)
      ensures PlayInvariant()
    {
      Reset();
      if startMaxValue == None || startMaxValue == Some(0) {
        startMaxValue := Some(entered);
      }
      SetMaxValue(startMaxValue);
    }

    /** getHighGuess: scan upward from midpoint + 1 past used values while
        below max. Python 2 orders None below every int, so with max unset
        the scan does not move. */
    method GetHighGuess(midpoint: int) returns (guess: int)
      ensures maxValue.Some? ==> guess == HighGuess(guesses, maxValue.value, midpoint + 1)
      ensures maxValue.None? ==> guess == midpoint + 1
    {
      guess := midpoint + 1;
      if maxValue.None? {
        return;
      }
      var max := maxValue.value;
      while guess < max && guess in guesses
        invariant HighGuess(guesses, max, guess) == HighGuess(guesses, max, midpoint + 1)
        decreases max - guess
      {
        guess := guess + 1;
      }
    }

    /** getLowGuess: scan downward from midpoint - 1 past used values while
        above min. */
    method GetLowGuess(midpoint: int) returns (guess: int)
      ensures guess == LowGuess(guesses, minValue, midpoint - 1)
    {
      guess := midpoint - 1;
      while guess > minValue && guess in guesses
        invariant LowGuess(guesses, minValue, guess) == LowGuess(guesses, minValue, midpoint - 1)
        decreases guess - minValue
      {
        guess := guess - 1;
      }
    }

    /** getNextGuess, built from the two probing methods. The source's
        arithmetic on an unset max fails, hence the precondition. */
    method GetNextGuess() returns (guess: int)
      requires maxValue.Some?
      ensures guess == NextGuess(minValue, maxValue.value, guesses)
    {
      var midpoint := Midpoint(minValue, maxValue.value);
      if midpoint !in guesses {
        return midpoint;
      }
      var guessHi := GetHighGuess(midpoint);
      var guessLo := GetLowGuess(midpoint);
      if Abs(guessHi - midpoint) <= Abs(guessLo - midpoint) {
        return guessHi;
      }
      return guessLo;
    }

    /** The state effect of boundError: the game ends and no score is kept. */
    method BoundError()
      modifies this`inProgress
      ensures !inProgress
    {
      inProgress := false;
    }

    /** One round of doGuess with the player's reply as a parameter: the guess
        is recorded; when min == max the reply is forced to correct; correct
        records the number of guesses as a score and ends the game, high
        lowers max below the guess, low raises min above it; a range left
        empty ends the game. The play invariant is preserved; under it the
        guess is the midpoint and a game that goes on keeps at most half of
        its range, and in any range of two or more values each answer moves
        its bound strictly inwards. */
    method DoGuess(answer: Answer)
      requires maxValue.Some?
      modifies this`guesses, this`scores, this`minValue, this`maxValue, this`inProgress
      ensures var g := NextGuess(old(minValue), old(maxValue).value, old(guesses));
              var a := if old(minValue) == old(maxValue).value then Correct else answer;
        && guesses == old(guesses) + [g]
        && scores == (if a == Correct then old(scores) + [|guesses|] else old(scores))
        && minValue == (if a == Low then g + 1 else old(minValue))
        && maxValue == (if a == High then Some(g - 1) else old(maxValue))
        && inProgress == (old(inProgress) && a != Correct && !IsBoundErrorCondition(minValue, maxValue))
      ensures old(PlayInvariant()) && old(inProgress) ==>
        guesses[|guesses| - 1] == Midpoint(old(minValue), old(maxValue).value)
      ensures old(PlayInvariant()) ==> PlayInvariant()
      ensures old(minValue) < old(maxValue).value ==>
        && (answer == High ==> maxValue.value < old(maxValue).value)
        && (answer == Low ==> minValue > old(minValue))
        && (inProgress ==> maxValue.value - minValue < old(maxValue).value - old(minValue))
      ensures old(PlayInvariant()) && old(inProgress) && old(minValue) <= old(maxValue).value ==>
        inProgress ==> maxValue.value - minValue + 1 <= (old(maxValue).value - old(minValue) + 1) / 2
    {
      ghost var min0, max0, guesses0 := minValue, maxValue.value, guesses;
      ghost var g := NextGuess(min0, max0, guesses0);
      if PlayInvariant() && inProgress {
        ClearRangeGuessIsMidpoint(min0, max0, guesses0);
        if min0 <= max0 {
          ClearRangeAnswerHalves(min0, max0, guesses0);
        }
      }
      if min0 < max0 {
        AnswerNarrows(min0, max0, guesses0);
      }
      var number := GetNextGuess();
      AddGuess(number);
      var reply := answer;
      if minValue == maxValue.value {
        reply := Correct;
      }
      if reply == Correct {
        scores := scores + [|guesses|];
        inProgress := false;
      } else if reply == High {
        SetMaxValue(Some(number - 1));
        assert minValue == min0 && maxValue.value == g - 1;
      } else {
        SetMinValue(number + 1);
        assert minValue == g + 1 && maxValue.value == max0;
      }
      if IsBoundErrorCondition(minValue, maxValue) {
        BoundError();
      }
    }
  }

  /** A negative starting bound leaves the range [1, max] empty from the
      start: the first guess, -2, lies outside it, and either answer moves its
      bound the wrong way (high raises max from -5 to -3, low lowers min from
      1 to -1) before the bound check ends the game without a score. */
  method NegativeBoundRound() returns (afterHigh: Game, afterLow: Game)
    ensures afterHigh.guesses == [-2] && afterHigh.minValue == 1
    ensures afterHigh.maxValue == Some(-3) && !afterHigh.inProgress && afterHigh.scores == []
    ensures afterLow.guesses == [-2] && afterLow.minValue == -1
    ensures afterLow.maxValue == Some(-5) && !afterLow.inProgress && afterLow.scores == []
  {
    assert NextGuess(1, -5, []) == -2;
    afterHigh := new Game();
    afterHigh.StartPlay(-5);
    afterHigh.DoGuess(High);
    afterLow := new Game();
    afterLow.StartPlay(-5);
    afterLow.DoGuess(Low);
  }
}
