/**
 * The probability of each sum of the dice and the cumulative probabilities,
 * as dice_simulation.py computes them from the enumerator's counts.  A table
 * is a list of `(sum, probability)` pairs, in ascending order of the sum.
 * Probabilities are exact reals.
 */
module Probabilities {
  import opened Combinations
  import opened Enumerator

  /** A list of `(sum, probability)` pairs. */
  type Table = seq<(int, real)>

  /** The total of the probabilities of `t`. */
  function Total(t: Table): real {
    if t == [] then 0.0 else Total(t[..|t| - 1]) + t[|t| - 1].1
  }

  /**
   * The reference table: for each sum `s` from `dice` to `dice * faces`,
   * the share of all combinations whose faces add up to `s`.
   */
  function ProbTable(dice: nat, faces: int): Table
    requires dice >= 1 && faces >= 1
  {
    NumCombinationsPositive(dice, faces);
    seq(dice * faces - dice + 1, i =>
      (dice + i, Frequency(dice, faces, dice + i) as real / NumCombinations(dice, faces) as real))
  }

  /** Entry `i` of `t` paired with the running total of `t[..i + 1]`. */
  function Cumulate(t: Table): (r: Table)
    ensures |r| == |t|
  {
    seq(|t|, i requires 0 <= i < |t| => (t[i].0, Total(t[..i + 1])))
  }

  /**
   * dice_simulation.py:76-98: the probability of each sum.  The sums are
   * visited in the order they were put into the frequency dictionary,
   * which is ascending.
   */
  method SumProbabilities(dice: nat, faces: nat) returns (probs: Table)
    requires dice >= 1 && faces >= 1
    ensures probs == ProbTable(dice, faces)
  {
    var unique, frequency := UniqueCombinations(dice, faces);
    NumCombinationsPositive(dice, faces);
    ghost var table := ProbTable(dice, faces);
    probs := [];
    for s := dice to dice * faces + 1
      invariant |probs| == s - dice
      invariant forall i :: 0 <= i < |probs| ==> probs[i] == table[i]
    {
      probs := probs + [(s, frequency[s] as real / |unique| as real)];
    }
  }

  /** dice_simulation.py:112-138: the running total of the probabilities, sum by sum. */
  method CumulativeProbabilities(dice: nat, faces: nat) returns (cumulative: Table)
    requires dice >= 1 && faces >= 1
    ensures cumulative == Cumulate(ProbTable(dice, faces))
  {
    var probs := SumProbabilities(dice, faces);
    cumulative := seq(|probs|, _ => (0, 0.0));
    for i := 0 to |probs|
      invariant |cumulative| == |probs|
      invariant forall j :: 0 <= j < i ==> cumulative[j] == (probs[j].0, Total(probs[..j + 1]))
    {
      var p := probs[i].1;
      if i > 0 {
        p := p + cumulative[i - 1].1;
      }
      TotalStep(probs, i);
      cumulative := cumulative[i := (probs[i].0, p)];
    }
  }

  /** Adding one entry to a prefix adds its probability to the total. */
  lemma TotalStep(t: Table, i: nat)
    requires i < |t|
    ensures Total(t[..i + 1]) == (if i == 0 then 0.0 else Total(t[..i])) + t[i].1
  {
    assert t[..i + 1][..i] == t[..i];
    if i == 0 {
      assert t[..0] == [];
    }
  }

  /** The table lists each sum from `dice` to `dice * faces` once, in ascending order. */
  lemma ProbTableSums(dice: nat, faces: int)
    requires dice >= 1 && faces >= 1
    ensures |ProbTable(dice, faces)| == dice * faces - dice + 1
    ensures forall i :: 0 <= i < |ProbTable(dice, faces)| ==> ProbTable(dice, faces)[i].0 == dice + i
  {
  }

  /** Every sum the dice can show has a positive probability. */
  lemma ProbTablePositive(dice: nat, faces: int)
    requires dice >= 1 && faces >= 1
    ensures forall i :: 0 <= i < |ProbTable(dice, faces)| ==> ProbTable(dice, faces)[i].1 > 0.0
  {
    NumCombinationsPositive(dice, faces);
    forall i | 0 <= i < |ProbTable(dice, faces)| ensures ProbTable(dice, faces)[i].1 > 0.0 {
      FrequencyPositive(dice, faces, dice + i);
    }
  }

  /** The share of combinations whose sum is at most `s`. */
  function AtMost(dice: nat, faces: int, s: int): real
    requires faces >= 1
  {
    NumCombinationsPositive(dice, faces);
    CountInRange(AllCombinations(dice, 1, faces), dice, s) as real / NumCombinations(dice, faces) as real
  }

  /** No combination has a sum below `dice`, and every one has a sum at most `dice * faces`. */
  lemma AtMostEnds(dice: nat, faces: int)
    requires faces >= 1
    ensures AtMost(dice, faces, dice - 1) == 0.0
    ensures AtMost(dice, faces, dice * faces) == 1.0
  {
    NumCombinationsPositive(dice, faces);
    FrequenciesTotal(dice, faces);
    var all, n := AllCombinations(dice, 1, faces), NumCombinations(dice, faces);
    EndShares(CountInRange(all, dice, dice - 1), n);
    EndShares(CountInRange(all, dice, dice * faces), n);
  }

  /** None of the whole is a share of zero, and all of it a share of one. */
  lemma EndShares(c: nat, n: nat)
    requires n > 0
    ensures c == 0 ==> c as real / n as real == 0.0
    ensures c == n ==> c as real / n as real == 1.0
  {
  }

  /** The share of the whole is one. */
  lemma WholeShare(c: real, n: real)
    requires n > 0.0 && c == n
    ensures c / n == 1.0
  {
  }

  /**
   * When entry `k` of `t` is the share of `u` with sum `low + k`, the
   * entries up to `i` add up to the share of `u` with a sum in `[low, low + i]`.
   */
  lemma {:induction false} TotalShares(t: Table, u: seq<seq<int>>, low: int, n: real, i: nat)
    requires n > 0.0 && i < |t|
    requires forall k :: 0 <= k < |t| ==> t[k].1 == CountWithSum(u, low + k) as real / n
    ensures Total(t[..i + 1]) == CountInRange(u, low, low + i) as real / n
  {
    TotalStep(t, i);
    if i == 0 {
      assert CountInRange(u, low, low - 1) == 0;
    } else {
      TotalShares(t, u, low, n, i - 1);
      DivAdd(CountInRange(u, low, low + i - 1) as real, CountWithSum(u, low + i) as real, n);
    }
  }

  /** Shares of one whole add up like their counts. */
  lemma DivAdd(a: real, b: real, n: real)
    requires n > 0.0
    ensures a / n + b / n == (a + b) / n
  {
  }

  /**
   * The cumulative probability of sum `dice + i` is the share of
   * combinations whose sum is at most `dice + i`.
   */
  lemma CumulativeShare(dice: nat, faces: int, i: nat)
    requires dice >= 1 && faces >= 1 && i < |ProbTable(dice, faces)|
    ensures Cumulate(ProbTable(dice, faces))[i] == (dice + i, AtMost(dice, faces, dice + i))
  {
    NumCombinationsPositive(dice, faces);
    var t, all, n := ProbTable(dice, faces), AllCombinations(dice, 1, faces), NumCombinations(dice, faces) as real;
    ProbTableShares(dice, faces);
    TotalShares(t, all, dice, n, i);
    assert Cumulate(t)[i] == (t[i].0, Total(t[..i + 1]));
  }

  /** Entry `k` of the table is the share of combinations with sum `dice + k`. */
  lemma ProbTableShares(dice: nat, faces: int)
    requires dice >= 1 && faces >= 1
    ensures NumCombinations(dice, faces) >= 1
    ensures forall k :: 0 <= k < |ProbTable(dice, faces)| ==>
      ProbTable(dice, faces)[k] == (dice + k, CountWithSum(AllCombinations(dice, 1, faces), dice + k) as real / NumCombinations(dice, faces) as real)
  {
    NumCombinationsPositive(dice, faces);
    forall k | 0 <= k < |ProbTable(dice, faces)|
      ensures ProbTable(dice, faces)[k] == (dice + k, CountWithSum(AllCombinations(dice, 1, faces), dice + k) as real / NumCombinations(dice, faces) as real)
    {
      assert Frequency(dice, faces, dice + k) == CountWithSum(AllCombinations(dice, 1, faces), dice + k);
    }
  }

  /** The probabilities of all sums add up to one. */
  lemma TotalIsOne(dice: nat, faces: int)
    requires dice >= 1 && faces >= 1
    ensures Total(ProbTable(dice, faces)) == 1.0
  {
    var t := ProbTable(dice, faces);
    ProbTableSums(dice, faces);
    CumulativeShare(dice, faces, |t| - 1);
    CumulateLast(t);
    assert dice + (|t| - 1) == dice * faces;
    AtMostEnds(dice, faces);
  }

  /** The last running total is the total of the whole table. */
  lemma CumulateLast(t: Table)
    requires |t| > 0
    ensures Cumulate(t)[|t| - 1].1 == Total(t)
  {
    assert t[..|t|] == t;
  }

  /** With positive probabilities the running totals strictly increase. */
  lemma {:induction false} CumulateIncreasing(t: Table, i: nat, j: nat)
    requires forall k :: 0 <= k < |t| ==> t[k].1 > 0.0
    requires i < j < |t|
    ensures Cumulate(t)[i].1 < Cumulate(t)[j].1
    decreases j - i
  {
    TotalStep(t, j);
    if i < j - 1 {
      CumulateIncreasing(t, i, j - 1);
    }
  }

  /**
   * The cumulative table of the dice: one entry per sum in ascending order,
   * strictly increasing probabilities, positive from the first, reaching one at the last.
   */
  lemma CumulativeTable(dice: nat, faces: int)
    requires dice >= 1 && faces >= 1
    ensures var c := Cumulate(ProbTable(dice, faces));
      && |c| == dice * faces - dice + 1
      && (forall i :: 0 <= i < |c| ==> c[i].0 == dice + i)
      && c[0].1 > 0.0
      && (forall i, j :: 0 <= i < j < |c| ==> c[i].1 < c[j].1)
      && c[|c| - 1].1 == 1.0
  {
    var t := ProbTable(dice, faces);
    MulAtLeast(dice, faces);
    ProbTablePositive(dice, faces);
    TotalStep(t, 0);
    forall i, j | 0 <= i < j < |t| ensures Cumulate(t)[i].1 < Cumulate(t)[j].1 {
      CumulateIncreasing(t, i, j);
    }
    CumulateLast(t);
    TotalIsOne(dice, faces);
  }

  /**
   * The running totals follow the recurrence of dice_simulation.py:126-136:
   * the first is the first probability, each later one adds its own
   * probability to the one before, and the sums are kept.
   */
  lemma CumulateStep(t: Table, i: nat)
    requires i < |t|
    ensures Cumulate(t)[i].0 == t[i].0
    ensures Cumulate(t)[i].1 == (if i == 0 then 0.0 else Cumulate(t)[i - 1].1) + t[i].1
  {
    TotalStep(t, i);
  }

  /**
   * With two six-faced dice the sums run from 2 to 12, and sum 7 gets a
   * probability of 3 / 21, that is 1 / 7, because the combinations counted are
   * the 21 ascending ones.
   */
  lemma SevenOfTwoDice()
    ensures |ProbTable(2, 6)| == 11
    ensures ProbTable(2, 6)[5] == (7, 1.0 / 7.0)
  {
    TwoSixFacedDice();
    assert ProbTable(2, 6)[5] == (7, 3.0 / 21.0);
  }
}
