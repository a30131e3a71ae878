/**
 * The dice game of dice_simulation.py and the tally of many plays.  The
 * coming-out roll wins on 7 or 11 and loses on 2, 3 or 12; any other sum
 * becomes the point, and the dice are rolled again until a 7 (lost) or the
 * point (won).  A roll is the sum the interval dictionary gives for a draw,
 * or `None` when no range holds the draw, exactly as Python compares it:
 * `None` is never 7, 11, 2, 3 or 12, and a `None` point is matched by a
 * later `None`.  The source rolls until the game is decided; here a play is
 * a finite list of draws, and a play whose draws run out is `Undecided`.
 */
module Craps {
  import opened Wrappers
  import opened Probabilities
  import opened Intervals

  /** The result of one play; `Undecided` when the draws run out first. */
  datatype Outcome = Won | Lost | Undecided

  /** A coming-out roll that wins at once. */
  predicate Natural(roll: Option<int>) {
    roll == Some(7) || roll == Some(11)
  }

  /** A coming-out roll that loses at once. */
  predicate CrapsOut(roll: Option<int>) {
    roll == Some(2) || roll == Some(3) || roll == Some(12)
  }

  /** Rolling for the point: the first 7 loses, the first roll equal to the point wins. */
  function PointPhase(point: Option<int>, rolls: seq<Option<int>>): Outcome {
    if rolls == [] then Undecided
    else if rolls[0] == Some(7) then Lost
    else if rolls[0] == point then Won
    else PointPhase(point, rolls[1..])
  }

  /** The outcome of a play with the given rolls. */
  function Game(rolls: seq<Option<int>>): Outcome {
    if rolls == [] then Undecided
    else if Natural(rolls[0]) then Won
    else if CrapsOut(rolls[0]) then Lost
    else PointPhase(rolls[0], rolls[1..])
  }

  /** The rolls the dictionary gives for a list of draws. */
  function Rolls(table: IntervalTable, draws: seq<real>): (r: seq<Option<int>>)
    ensures |r| == |draws|
  {
    seq(|draws|, i requires 0 <= i < |draws| => Lookup(table, draws[i]))
  }

  /** dice_simulation.py:190-213: one play, rolling the dice with one draw after another. */
  method Play(table: IntervalTable, draws: seq<real>) returns (outcome: Outcome)
    ensures outcome == Game(Rolls(table, draws))
  {
    ghost var rolls := Rolls(table, draws);
    if |draws| == 0 {
      return Undecided;
    }
    var sum := RollDice(table, draws[0]);
    if sum == Some(7) || sum == Some(11) {
      return Won;
    } else if sum == Some(2) || sum == Some(3) || sum == Some(12) {
      return Lost;
    }
    var point := sum;
    var k := 1;
    while k < |draws|
      invariant 1 <= k <= |draws|
      invariant PointPhase(point, rolls[k..]) == Game(rolls)
    {
      var next := RollDice(table, draws[k]);
      assert rolls[k..][1..] == rolls[k + 1..];
      if next == Some(7) {
        return Lost;
      } else if next == point {
        return Won;
      }
      k := k + 1;
    }
    assert rolls[k..] == [];
    return Undecided;
  }

  // ---------------------------------------------------------------------------
  // Properties of the game
  // ---------------------------------------------------------------------------

  /** None of the first `k` rolls is a 7 or the point. */
  predicate Quiet(point: Option<int>, rolls: seq<Option<int>>, k: nat)
    requires k <= |rolls|
  {
    forall j :: 0 <= j < k ==> rolls[j] != Some(7) && rolls[j] != point
  }

  /** After quiet rolls, the first 7 or point decides: a 7 loses, the point wins. */
  lemma {:induction false} PointPhaseAt(point: Option<int>, rolls: seq<Option<int>>, k: nat)
    requires k < |rolls| && Quiet(point, rolls, k)
    requires rolls[k] == Some(7) || rolls[k] == point
    ensures PointPhase(point, rolls) == if rolls[k] == Some(7) then Lost else Won
  {
    if k > 0 {
      PointPhaseAt(point, rolls[1..], k - 1);
    }
  }

  /** The point phase stays undecided exactly when every roll is quiet. */
  lemma {:induction false} PointPhaseUndecided(point: Option<int>, rolls: seq<Option<int>>)
    ensures PointPhase(point, rolls) == Undecided <==> Quiet(point, rolls, |rolls|)
  {
    if rolls != [] {
      PointPhaseUndecided(point, rolls[1..]);
      assert forall j :: 1 <= j < |rolls| ==> rolls[j] == rolls[1..][j - 1];
    }
  }

  /** The first roll that is a 7 or the point, when there is one. */
  lemma FirstDecisive(point: Option<int>, rolls: seq<Option<int>>) returns (k: nat)
    requires !Quiet(point, rolls, |rolls|)
    ensures k < |rolls| && Quiet(point, rolls, k) && (rolls[k] == Some(7) || rolls[k] == point)
  {
    k := 0;
    while rolls[k] != Some(7) && rolls[k] != point
      invariant k < |rolls| && Quiet(point, rolls, k)
      decreases |rolls| - k
    {
      k := k + 1;
    }
  }

  /** The point is made exactly when a roll equals it, is not a 7, and follows only quiet rolls. */
  lemma PointPhaseWon(point: Option<int>, rolls: seq<Option<int>>)
    ensures PointPhase(point, rolls) == Won
        <==> exists k :: 0 <= k < |rolls| && Quiet(point, rolls, k) && rolls[k] == point && rolls[k] != Some(7)
  {
    PointPhaseUndecided(point, rolls);
    if PointPhase(point, rolls) == Won {
      var k := FirstDecisive(point, rolls);
      PointPhaseAt(point, rolls, k);
    }
    if exists k :: 0 <= k < |rolls| && Quiet(point, rolls, k) && rolls[k] == point && rolls[k] != Some(7) {
      var k :| 0 <= k < |rolls| && Quiet(point, rolls, k) && rolls[k] == point && rolls[k] != Some(7);
      PointPhaseAt(point, rolls, k);
    }
  }

  /** The point is lost exactly when a 7 comes after only quiet rolls. */
  lemma PointPhaseLost(point: Option<int>, rolls: seq<Option<int>>)
    ensures PointPhase(point, rolls) == Lost
        <==> exists k :: 0 <= k < |rolls| && Quiet(point, rolls, k) && rolls[k] == Some(7)
  {
    PointPhaseUndecided(point, rolls);
    if PointPhase(point, rolls) == Lost {
      var k := FirstDecisive(point, rolls);
      PointPhaseAt(point, rolls, k);
    }
    if exists k :: 0 <= k < |rolls| && Quiet(point, rolls, k) && rolls[k] == Some(7) {
      var k :| 0 <= k < |rolls| && Quiet(point, rolls, k) && rolls[k] == Some(7);
      PointPhaseAt(point, rolls, k);
    }
  }

  /** A decided point phase ignores any later rolls. */
  lemma {:induction false} PointPhaseStable(point: Option<int>, rolls: seq<Option<int>>, more: seq<Option<int>>)
    requires PointPhase(point, rolls) != Undecided
    ensures PointPhase(point, rolls + more) == PointPhase(point, rolls)
  {
    assert (rolls + more)[0] == rolls[0];
    if rolls[0] != Some(7) && rolls[0] != point {
      assert (rolls + more)[1..] == rolls[1..] + more;
      PointPhaseStable(point, rolls[1..], more);
    }
  }

  /** A decided play ignores any later rolls, so the draws it does not use change nothing. */
  lemma GameStable(rolls: seq<Option<int>>, more: seq<Option<int>>)
    requires Game(rolls) != Undecided
    ensures Game(rolls + more) == Game(rolls)
  {
    assert (rolls + more)[0] == rolls[0];
    if !Natural(rolls[0]) && !CrapsOut(rolls[0]) {
      assert (rolls + more)[1..] == rolls[1..] + more;
      PointPhaseStable(rolls[0], rolls[1..], more);
    }
  }

  /** With the dice's dictionary, draws in `[0, 1)` give rolls that are sums of the two dice. */
  lemma DiceRolls(draws: seq<real>)
    requires forall i :: 0 <= i < |draws| ==> 0.0 <= draws[i] < 1.0
    ensures forall i :: 0 <= i < |draws| ==>
      Rolls(DiceTable(2, 6), draws)[i].Some? && 2 <= Rolls(DiceTable(2, 6), draws)[i].value <= 12
  {
    forall i | 0 <= i < |draws|
      ensures Rolls(DiceTable(2, 6), draws)[i].Some? && 2 <= Rolls(DiceTable(2, 6), draws)[i].value <= 12
    {
      DiceRollDefined(2, 6, draws[i]);
    }
  }

  // ---------------------------------------------------------------------------
  // The tally of many plays
  // ---------------------------------------------------------------------------

  /** How many of `outcomes` equal `o`. */
  function Count(outcomes: seq<Outcome>, o: Outcome): nat {
    if outcomes == [] then 0
    else Count(outcomes[..|outcomes| - 1], o) + (if outcomes[|outcomes| - 1] == o then 1 else 0)
  }

  /** The outcome of each play when every play rolls with `table`. */
  function Outcomes(table: IntervalTable, plays: seq<seq<real>>): (r: seq<Outcome>)
    ensures |r| == |plays|
  {
    seq(|plays|, i requires 0 <= i < |plays| => Game(Rolls(table, plays[i])))
  }

  /** dice_simulation.py:268-279: plays each play with `table`, counting the wins and the losses. */
  method Tally(table: IntervalTable, plays: seq<seq<real>>) returns (won: nat, lost: nat)
    ensures won == Count(Outcomes(table, plays), Won)
    ensures lost == Count(Outcomes(table, plays), Lost)
    ensures won + lost + Count(Outcomes(table, plays), Undecided) == |plays|
  {
    ghost var outcomes := Outcomes(table, plays);
    won, lost := 0, 0;
    for i := 0 to |plays|
      invariant won == Count(outcomes[..i], Won)
      invariant lost == Count(outcomes[..i], Lost)
    {
      var outcome := Play(table, plays[i]);
      assert outcomes[..i + 1][..i] == outcomes[..i];
      if outcome == Won {
        won := won + 1;
      } else if outcome == Lost {
        lost := lost + 1;
      }
    }
    assert outcomes[..|plays|] == outcomes;
    CountsAddUp(outcomes);
  }

  /** dice_simulation.py:262-279: builds the dictionary of two six-faced dice and tallies the plays with it. */
  method Simulate(plays: seq<seq<real>>) returns (won: nat, lost: nat)
    ensures won == Count(Outcomes(DiceTable(2, 6), plays), Won)
    ensures lost == Count(Outcomes(DiceTable(2, 6), plays), Lost)
    ensures won + lost + Count(Outcomes(DiceTable(2, 6), plays), Undecided) == |plays|
  {
    var cumulative := CumulativeProbabilities(2, 6);
    var table := FormatProbabilities(cumulative);
    won, lost := Tally(table, plays);
  }

  /** Every outcome is a win, a loss or undecided. */
  lemma {:induction false} CountsAddUp(outcomes: seq<Outcome>)
    ensures Count(outcomes, Won) + Count(outcomes, Lost) + Count(outcomes, Undecided) == |outcomes|
  {
    if outcomes != [] {
      CountsAddUp(outcomes[..|outcomes| - 1]);
    }
  }

  /** dice_simulation.py:281-282: the shares of won and lost plays. */
  function Rates(won: nat, lost: nat, plays: nat): (r: (real, real))
    requires plays > 0 && won + lost <= plays
    ensures 0.0 <= r.0 <= 1.0 && 0.0 <= r.1 <= 1.0
    ensures won + lost == plays ==> r.0 + r.1 == 1.0
  {
    ShareBounds(won as real, lost as real, plays as real);
    (won as real / plays as real, lost as real / plays as real)
  }

  /** Two parts of a positive whole are shares between zero and one, adding up to one when they fill it. */
  lemma ShareBounds(a: real, b: real, n: real)
    requires 0.0 <= a && 0.0 <= b && a + b <= n && n > 0.0
    ensures 0.0 <= a / n <= 1.0 && 0.0 <= b / n <= 1.0
    ensures a + b == n ==> a / n + b / n == 1.0
  {
    ShareAtMostOne(a, n);
    ShareAtMostOne(b, n);
    DivAdd(a, b, n);
    if a + b == n {
      WholeShare(a + b, n);
    }
  }

  /** A part of a positive whole is a share between zero and one. */
  lemma ShareAtMostOne(a: real, n: real)
    requires 0.0 <= a <= n && n > 0.0
    ensures 0.0 <= a / n <= 1.0
  {
    assert (a / n) * n == a;
  }
}
