/**
 * The combination enumerator of dice_simulation.py (`obtener_comb_unicas_y_frec_sumas`).
 *
 * It runs an odometer over one counter per die, each ranging over the faces.
 * At every step it sorts the counters and, when that combination is new,
 * records it and counts it under its sum.  Termination and completeness are
 * proved through the odometer reading `Rank` of the counters: the faces read
 * as the digits of a base-`faces` numeral.
 */
module Enumerator {
  import opened Combinations

  /** `b` to the power `k`. */
  function Pow(b: int, k: nat): int {
    if k == 0 then 1 else b * Pow(b, k - 1)
  }

  /** A positive base has positive powers. */
  lemma {:induction false} PowPositive(b: int, k: nat)
    requires b >= 1
    ensures Pow(b, k) >= 1
  {
    if k > 0 {
      PowPositive(b, k - 1);
      MulAtLeast(Pow(b, k - 1), b);
    }
  }

  /** Powers of one base multiply by adding the exponents. */
  lemma {:induction false} PowAdd(b: int, j: nat, k: nat)
    ensures Pow(b, j) * Pow(b, k) == Pow(b, j + k)
  {
    if j > 0 {
      PowAdd(b, j - 1, k);
      calc {
        Pow(b, j) * Pow(b, k);
        (b * Pow(b, j - 1)) * Pow(b, k);
        b * (Pow(b, j - 1) * Pow(b, k));
      }
    }
  }

  /** Multiplying by a non-negative factor keeps the order. */
  lemma MulLe(a: int, b: int, c: int)
    requires a <= b && c >= 0
    ensures a * c <= b * c
  {
  }

  /** The odometer reading of `t`: face `v` is the digit `v - 1`, the first die the most significant. */
  function Rank(t: seq<int>, faces: int): int {
    if t == [] then 0 else Rank(t[..|t| - 1], faces) * faces + (t[|t| - 1] - 1)
  }

  /** Every die from position `d` on shows 1. */
  predicate OnesFrom(t: seq<int>, d: nat) {
    forall i :: d <= i < |t| ==> t[i] == 1
  }

  /** A roll of `m` dice reads between 0 and `faces^m - 1`. */
  lemma {:induction false} RankBound(t: seq<int>, faces: int)
    requires faces >= 1 && Within(t, 1, faces)
    ensures 0 <= Rank(t, faces) < Pow(faces, |t|)
  {
    if t != [] {
      var p := t[..|t| - 1];
      assert Within(p, 1, faces) by {
        forall i | 0 <= i < |p| ensures 1 <= p[i] <= faces { assert p[i] == t[i]; }
      }
      RankBound(p, faces);
      DigitBound(Rank(p, faces), Pow(faces, |p|), t[|t| - 1] - 1, faces);
    }
  }

  /** Appending a digit below `m` to a numeral below `q` gives a numeral below `q * m`. */
  lemma DigitBound(r: int, q: int, x: int, m: int)
    requires 0 <= r < q && 0 <= x < m
    ensures 0 <= r * m + x < m * q
  {
    MulLe(r, q - 1, m);
    MulLe(0, r, m);
  }

  /** Two base-`m` numerals with equal value have equal last digit and equal rest. */
  lemma DigitsUnique(a: int, x: int, b: int, y: int, m: int)
    requires m >= 1 && 0 <= x < m && 0 <= y < m
    requires a * m + x == b * m + y
    ensures a == b && x == y
  {
    if a < b {
      MulLe(a + 1, b, m);
    } else if b < a {
      MulLe(b + 1, a, m);
    }
  }

  /** Different rolls of the same dice have different readings. */
  lemma {:induction false} RankInjective(t: seq<int>, u: seq<int>, faces: int)
    requires faces >= 1 && |t| == |u| && Within(t, 1, faces) && Within(u, 1, faces)
    requires Rank(t, faces) == Rank(u, faces)
    ensures t == u
  {
    if t != [] {
      var n := |t|;
      var tp, up := t[..n - 1], u[..n - 1];
      assert Within(tp, 1, faces) by {
        forall i | 0 <= i < |tp| ensures 1 <= tp[i] <= faces { assert tp[i] == t[i]; }
      }
      assert Within(up, 1, faces) by {
        forall i | 0 <= i < |up| ensures 1 <= up[i] <= faces { assert up[i] == u[i]; }
      }
      DigitsUnique(Rank(tp, faces), t[n - 1] - 1, Rank(up, faces), u[n - 1] - 1, faces);
      RankInjective(tp, up, faces);
      assert t == tp + [t[n - 1]] && u == up + [u[n - 1]];
    }
  }

  /** Trailing ones are trailing zero digits. */
  lemma {:induction false} RankOfOnesSuffix(t: seq<int>, d: nat, faces: int)
    requires d <= |t| && OnesFrom(t, d)
    ensures Rank(t, faces) == Rank(t[..d], faces) * Pow(faces, |t| - d)
    decreases |t|
  {
    if |t| > d {
      var p := t[..|t| - 1];
      assert OnesFrom(p, d);
      RankOfOnesSuffix(p, d, faces);
      assert p[..d] == t[..d];
      calc {
        Rank(t, faces);
        Rank(p, faces) * faces;
        (Rank(t[..d], faces) * Pow(faces, |p| - d)) * faces;
        Rank(t[..d], faces) * (faces * Pow(faces, |p| - d));
      }
    } else {
      assert t[..d] == t;
    }
  }

  /**
   * The reading of the next roll the odometer has not yet visited.  With the
   * cursor `d` on the last die this is the current roll; after a carry has
   * moved the cursor to die `d` (dice `d + 1` onwards reset to 1), it is the
   * reading in which die `d` has been advanced.
   */
  function Pending(c: seq<int>, d: nat, faces: int): int
    requires d <= |c|
  {
    if d == |c| then Rank(c, faces) else (Rank(c[..d], faces) + 1) * Pow(faces, |c| - d)
  }

  /** Advancing die `d` without overflow reaches the pending reading. */
  lemma Advance(c: seq<int>, d: nat, faces: int)
    requires 1 <= d <= |c| && OnesFrom(c, d)
    ensures Rank(c[d - 1 := c[d - 1] + 1], faces) == (Rank(c[..d], faces) + 1) * Pow(faces, |c| - d)
  {
    var c' := c[d - 1 := c[d - 1] + 1];
    assert OnesFrom(c', d);
    RankOfOnesSuffix(c', d, faces);
    assert c'[..d][..d - 1] == c[..d][..d - 1];
  }

  /** Resetting die `d` from the last face and moving the cursor left keeps the pending reading. */
  lemma Carry(c: seq<int>, d: nat, faces: int)
    requires 1 <= d <= |c| && OnesFrom(c, d) && c[d - 1] == faces
    ensures OnesFrom(c[d - 1 := 1], d - 1)
    ensures (Rank(c[d - 1 := 1][..d - 1], faces) + 1) * Pow(faces, |c| - (d - 1))
         == (Rank(c[..d], faces) + 1) * Pow(faces, |c| - d)
  {
    var c' := c[d - 1 := 1];
    assert c'[..d - 1] == c[..d][..d - 1];
    var r := Rank(c'[..d - 1], faces);
    assert Rank(c[..d], faces) + 1 == (r + 1) * faces;
    calc {
      (r + 1) * Pow(faces, |c| - (d - 1));
      (r + 1) * (faces * Pow(faces, |c| - d));
      ((r + 1) * faces) * Pow(faces, |c| - d);
    }
  }

  /** No pending reading exceeds the number of rolls. */
  lemma PendingBound(c: seq<int>, d: nat, faces: int)
    requires faces >= 1 && d <= |c| && Within(c, 1, faces)
    ensures Pending(c, d, faces) <= Pow(faces, |c|)
  {
    if d == |c| {
      RankBound(c, faces);
    } else {
      var p := c[..d];
      assert Within(p, 1, faces) by {
        forall i | 0 <= i < |p| ensures 1 <= p[i] <= faces { assert p[i] == c[i]; }
      }
      RankBound(p, faces);
      PowPositive(faces, |c| - d);
      MulLe(Rank(p, faces) + 1, Pow(faces, d), Pow(faces, |c| - d));
      PowAdd(faces, d, |c| - d);
    }
  }

  /**
   * One odometer step from counters `c` with cursor `d` to counters `c'` with
   * cursor `d'`: the reading still pending grows by one when the cursor was on
   * the last die and is kept otherwise.
   */
  lemma StepPending(c: seq<int>, d: nat, c': seq<int>, d': nat, faces: int)
    requires faces >= 1 && 1 <= d <= |c| && Within(c, 1, faces) && OnesFrom(c, d)
    requires c[d - 1] + 1 > faces ==> c' == c[d - 1 := c[d - 1] + 1][d - 1 := 1] && d' == d - 1
    requires c[d - 1] + 1 <= faces ==> c' == c[d - 1 := c[d - 1] + 1] && d' == (if d < |c| then |c| else d)
    ensures |c'| == |c| && d' <= |c'| && Within(c', 1, faces) && OnesFrom(c', d')
    ensures Pending(c', d', faces) == Pending(c, d, faces) + (if d == |c| then 1 else 0)
    ensures Pending(c', d', faces) <= Pow(faces, |c|)
  {
    if c[d - 1] == faces {
      assert c' == c[d - 1 := 1];
      Carry(c, d, faces);
    } else {
      Advance(c, d, faces);
    }
    if d == |c| {
      assert c[..d] == c;
    }
    PendingBound(c', d', faces);
  }

  /** Every roll read below `bound` has its sorted form among `unique`. */
  ghost predicate Covers(unique: seq<seq<int>>, dice: nat, faces: int, bound: int) {
    forall t :: IsRoll(t, dice, faces) && Rank(t, faces) < bound ==> Sort(t) in unique
  }

  /** `unique` holds distinct combinations of the dice. */
  ghost predicate Recorded(unique: seq<seq<int>>, dice: nat, faces: int) {
    (forall x :: x in unique ==> IsCombination(x, dice, faces)) && Distinct(unique)
  }

  /** `frequency` has one key per sum from `dice` to `dice * faces`, mapped to its count in `unique`. */
  ghost predicate Counted(frequency: map<int, int>, unique: seq<seq<int>>, dice: nat, faces: int) {
    (forall s :: s in frequency <==> dice <= s <= dice * faces)
    && (forall s :: s in frequency ==> frequency[s] == CountWithSum(unique, s))
  }

  /** The loop invariant of the enumerator. */
  ghost predicate Progress(dice: nat, faces: int, c: seq<int>, d: nat, unique: seq<seq<int>>, frequency: map<int, int>) {
    && (faces >= 1 || dice == 0) && d <= dice && IsRoll(c, dice, faces) && OnesFrom(c, d)
    && Pending(c, d, faces) <= Pow(faces, dice)
    && Covers(unique, dice, faces, Pending(c, d, faces))
    && Recorded(unique, dice, faces)
    && (dice == 0 ==> unique == [])
    && Counted(frequency, unique, dice, faces)
  }

  /** Appending a new combination keeps `unique` a list of distinct combinations. */
  lemma RecordNew(unique: seq<seq<int>>, x: seq<int>, dice: nat, faces: int)
    requires Recorded(unique, dice, faces) && IsCombination(x, dice, faces) && x !in unique
    ensures Recorded(unique + [x], dice, faces)
  {
    var u := unique + [x];
    forall i, j | 0 <= i < j < |u| ensures u[i] != u[j] {
      if j == |unique| {
        assert u[i] == unique[i];
      } else {
        assert u[i] == unique[i] && u[j] == unique[j];
      }
    }
  }

  /** Appending `x` adds one to the count of its sum and to nothing else. */
  lemma CountNew(frequency: map<int, int>, unique: seq<seq<int>>, x: seq<int>, dice: nat, faces: int)
    requires Counted(frequency, unique, dice, faces) && Sum(x) in frequency
    ensures Counted(frequency[Sum(x) := frequency[Sum(x)] + 1], unique + [x], dice, faces)
  {
    var u := unique + [x];
    assert u[..|u| - 1] == unique;
  }

  /** Once the current roll is recorded, every roll up to its reading is. */
  lemma RecordedThrough(unique: seq<seq<int>>, c: seq<int>, faces: int)
    requires faces >= 1 && Within(c, 1, faces) && Sort(c) in unique
    requires Covers(unique, |c|, faces, Rank(c, faces))
    ensures Covers(unique, |c|, faces, Rank(c, faces) + 1)
  {
    forall t | IsRoll(t, |c|, faces) && Rank(t, faces) < Rank(c, faces) + 1 ensures Sort(t) in unique {
      if Rank(t, faces) == Rank(c, faces) {
        RankInjective(t, c, faces);
      }
    }
  }

  /** Covering is kept when more combinations are recorded. */
  lemma CoversGrow(unique: seq<seq<int>>, unique': seq<seq<int>>, dice: nat, faces: int, bound: int)
    requires Covers(unique, dice, faces, bound) && unique <= unique'
    ensures Covers(unique', dice, faces, bound)
  {
    forall t | IsRoll(t, dice, faces) && Rank(t, faces) < bound ensures Sort(t) in unique' {
      var k :| 0 <= k < |unique| && unique[k] == Sort(t);
      assert unique'[k] == Sort(t);
    }
  }

  /** One pass of the enumerator's loop body keeps the odometer part of its invariant. */
  lemma Step(dice: nat, faces: int, c: seq<int>, d: nat, unique: seq<seq<int>>,
             c': seq<int>, d': nat, unique': seq<seq<int>>)
    requires faces >= 1 && 1 <= d <= dice && IsRoll(c, dice, faces) && OnesFrom(c, d)
    requires Covers(unique, dice, faces, Pending(c, d, faces))
    requires unique <= unique' && Sort(c) in unique'
    requires c[d - 1] + 1 > faces ==> c' == c[d - 1 := c[d - 1] + 1][d - 1 := 1] && d' == d - 1
    requires c[d - 1] + 1 <= faces ==> c' == c[d - 1 := c[d - 1] + 1] && d' == (if d < dice then dice else d)
    ensures d' <= dice && IsRoll(c', dice, faces) && OnesFrom(c', d')
    ensures Pending(c', d', faces) <= Pow(faces, dice)
    ensures Covers(unique', dice, faces, Pending(c', d', faces))
    ensures Pending(c', d', faces) == Pending(c, d, faces) + (if d == dice then 1 else 0)
  {
    StepPending(c, d, c', d', faces);
    CoversGrow(unique, unique', dice, faces, Pending(c, d, faces));
    if d == dice {
      RecordedThrough(unique', c, faces);
    }
  }

  /** A carry past the first die leaves every roll behind. */
  lemma PendingExhausted(c: seq<int>, faces: int)
    requires |c| > 0
    ensures Pending(c, 0, faces) == Pow(faces, |c|)
  {
    assert c[..0] == [];
  }

  /** Once every reading below `faces^dice` is covered, every combination is recorded. */
  lemma AllRecorded(unique: seq<seq<int>>, dice: nat, faces: int)
    requires faces >= 1 && Covers(unique, dice, faces, Pow(faces, dice))
    ensures forall x :: IsCombination(x, dice, faces) ==> x in unique
  {
    forall x | IsCombination(x, dice, faces) ensures x in unique {
      RankBound(x, faces);
      SortAscending(x);
    }
  }

  /** The state the enumerator starts its loop from. */
  lemma Start(dice: nat, faces: int, frequency: map<int, int>)
    requires faces >= 1 || dice == 0
    requires forall k :: k in frequency <==> dice <= k <= dice * faces
    requires forall k :: k in frequency ==> frequency[k] == 0
    ensures Progress(dice, faces, seq(dice, _ => 1), dice, [], frequency)
  {
    var c := seq(dice, _ => 1);
    if dice == 0 {
      assert c == [];
      forall t | IsRoll(t, dice, faces) ensures Rank(t, faces) >= 0 {
        assert t == [];
      }
    } else {
      RankOfOnesSuffix(c, 0, faces);
      PendingBound(c, dice, faces);
      forall t | IsRoll(t, dice, faces) ensures Rank(t, faces) >= 0 {
        RankBound(t, faces);
      }
    }
  }

  /**
   * A repetition-free list of all combinations has the reference enumeration's
   * length and the reference counts per sum.
   */
  lemma MatchesReference(unique: seq<seq<int>>, dice: nat, faces: int)
    requires Distinct(unique)
    requires forall x :: x in unique <==> IsCombination(x, dice, faces)
    ensures |unique| == NumCombinations(dice, faces)
    ensures forall s :: CountWithSum(unique, s) == Frequency(dice, faces, s)
  {
    var all := AllCombinations(dice, 1, faces);
    AllCombinationsDistinct(dice, 1, faces);
    forall x ensures x in unique <==> x in all {
      if x in all {
        AllCombinationsSound(dice, 1, faces, x);
      }
      if IsCombination(x, dice, faces) {
        AllCombinationsComplete(dice, 1, faces, x);
      }
    }
    forall s ensures CountWithSum(unique, s) == Frequency(dice, faces, s) {
      SameMembersSameCounts(unique, all, s);
    }
    SameMembersSameCounts(unique, all, 0);
  }

  /** The enumerator's results once the cursor has run off the left end. */
  lemma Finish(dice: nat, faces: int, c: seq<int>, unique: seq<seq<int>>, frequency: map<int, int>)
    requires Progress(dice, faces, c, 0, unique, frequency)
    ensures forall s :: s in frequency <==> dice <= s <= dice * faces
    ensures forall s :: s in frequency ==> frequency[s] == CountWithSum(unique, s)
    ensures forall x :: x in unique ==> IsCombination(x, dice, faces)
    ensures Distinct(unique)
    ensures dice > 0 ==> forall x :: IsCombination(x, dice, faces) ==> x in unique
    ensures dice == 0 ==> unique == []
    ensures dice > 0 ==> |unique| == NumCombinations(dice, faces)
    ensures dice > 0 ==> forall s :: s in frequency ==> frequency[s] == Frequency(dice, faces, s)
    ensures CountInRange(unique, dice, dice * faces) == |unique|
  {
    if dice > 0 {
      PendingExhausted(c, faces);
      AllRecorded(unique, dice, faces);
      MatchesReference(unique, dice, faces);
    }
    forall x | x in unique ensures dice <= Sum(x) <= dice * faces {
      SumBounds(x, dice, faces);
    }
    CountsCoverAll(unique, dice, dice * faces);
  }

  /** dice_simulation.py:36-42: a count of zero for every sum from `dice` to `dice * faces`. */
  method NoOccurrences(dice: nat, faces: nat) returns (frequency: map<int, int>)
    ensures forall s :: s in frequency <==> dice <= s <= dice * faces
    ensures forall s :: s in frequency ==> frequency[s] == 0
  {
    frequency := map[];
    var s := dice;
    while s <= dice * faces
      invariant s == dice || s <= dice * faces + 1
      invariant forall k :: k in frequency <==> dice <= k < s
      invariant forall k :: k in frequency ==> frequency[k] == 0
      decreases dice * faces - s
    {
      frequency := frequency[s := 0];
      s := s + 1;
    }
  }

  /** dice_simulation.py:54-60: records the sorted counters if they are new, and counts their sum. */
  method RecordSorted(unique: seq<seq<int>>, frequency: map<int, int>, c: seq<int>, ghost dice: nat, ghost faces: int)
    returns (unique': seq<seq<int>>, frequency': map<int, int>)
    requires IsRoll(c, dice, faces) && Recorded(unique, dice, faces) && Counted(frequency, unique, dice, faces)
    ensures unique' == if Sort(c) in unique then unique else unique + [Sort(c)]
    ensures Recorded(unique', dice, faces) && Counted(frequency', unique', dice, faces)
  {
    unique', frequency' := unique, frequency;
    var sorted := Sort(c);
    if sorted !in unique {
      SortRoll(c, dice, faces);
      SumBounds(sorted, dice, faces);
      RecordNew(unique, sorted, dice, faces);
      CountNew(frequency, unique, sorted, dice, faces);
      unique' := unique + [sorted];
      frequency' := frequency[Sum(sorted) := frequency[Sum(sorted)] + 1];
    }
  }

  /**
   * dice_simulation.py:23-74: the unique combinations in the order the
   * odometer first reaches them, and the number of them with each sum from
   * `dice` to `dice * faces`.
   */
  method UniqueCombinations(dice: nat, faces: nat) returns (unique: seq<seq<int>>, frequency: map<int, int>)
    requires faces >= 1 || dice == 0
    ensures forall s :: s in frequency <==> dice <= s <= dice * faces
    ensures forall s :: s in frequency ==> frequency[s] == CountWithSum(unique, s)
    ensures forall x :: x in unique ==> IsCombination(x, dice, faces)
    ensures Distinct(unique)
    ensures dice > 0 ==> forall x :: IsCombination(x, dice, faces) ==> x in unique
    ensures dice == 0 ==> unique == []
    ensures dice > 0 ==> |unique| == NumCombinations(dice, faces)
    ensures dice > 0 ==> forall s :: s in frequency ==> frequency[s] == Frequency(dice, faces, s)
    ensures CountInRange(unique, dice, dice * faces) == |unique|
  {
    frequency := NoOccurrences(dice, faces);
    var combination := seq(dice, _ => 1);
    unique := [];
    var die := dice;
    Start(dice, faces, frequency);
    // `left` counts the readings not yet reached; the cursor's phase breaks ties
    ghost var left: int := Pow(faces, dice) - Pending(combination, die, faces);
    while die > 0
      invariant Progress(dice, faces, combination, die, unique, frequency)
      invariant left == Pow(faces, dice) - Pending(combination, die, faces)
      decreases left, if die == dice then 0 else die + 1
    {
      ghost var before, cursor, unique0 := combination, die, unique;
      unique, frequency := RecordSorted(unique, frequency, combination, dice, faces);

      combination := combination[die - 1 := combination[die - 1] + 1];
      if combination[die - 1] > faces {
        combination := combination[die - 1 := 1];
        die := die - 1;
      } else if die < dice {
        die := dice;
      }

      Step(dice, faces, before, cursor, unique0, combination, die, unique);
      left := left - (if cursor == dice then 1 else 0);
    }
    Finish(dice, faces, combination, unique, frequency);
  }
}
