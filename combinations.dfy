/**
 * Dice combinations as the simulator understands them: a roll gives one face
 * to each die, and a combination is a roll listed in ascending order, so that
 * (3, 4) and (4, 3) are the same combination.  This module also gives an
 * independent reference enumeration of every combination, against which the
 * odometer enumerator of module Enumerator is proved.
 */
module Combinations {

  /** `s` is in ascending order, as Python's `sorted` leaves a list of ints. */
  predicate Ascending(s: seq<int>) {
    forall i, j :: 0 <= i < j < |s| ==> s[i] <= s[j]
  }

  /** Every element of `s` lies in `[low, high]`. */
  predicate Within(s: seq<int>, low: int, high: int) {
    forall i :: 0 <= i < |s| ==> low <= s[i] <= high
  }

  /** One face per die: `dice` values in `[1, faces]`, in any order. */
  predicate IsRoll(t: seq<int>, dice: nat, faces: int) {
    |t| == dice && Within(t, 1, faces)
  }

  /** A combination: a roll listed in ascending order. */
  predicate IsCombination(t: seq<int>, dice: nat, faces: int) {
    IsRoll(t, dice, faces) && Ascending(t)
  }

  /** No value occurs twice in `u`. */
  predicate Distinct(u: seq<seq<int>>) {
    forall i, j :: 0 <= i < j < |u| ==> u[i] != u[j]
  }

  /** Python's `sum` over a list of ints. */
  function Sum(s: seq<int>): int {
    if s == [] then 0 else Sum(s[..|s| - 1]) + s[|s| - 1]
  }

  // ---------------------------------------------------------------------------
  // Sorting (Python's `sorted`, dice_simulation.py:54)
  // ---------------------------------------------------------------------------

  /** Inserts `x` into the ascending list `s` before its first larger element. */
  function Insert(x: int, s: seq<int>): (r: seq<int>)
    ensures |r| == |s| + 1
    ensures multiset(r) == multiset(s) + multiset{x}
  {
    if s == [] || x <= s[0] then [x] + s
    else
      assert s == [s[0]] + s[1..];
      [s[0]] + Insert(x, s[1..])
  }

  /** Inserting into an ascending list keeps it ascending. */
  lemma {:induction false} InsertAscending(x: int, s: seq<int>)
    requires Ascending(s)
    ensures Ascending(Insert(x, s))
  {
    if s != [] && x > s[0] {
      var rest := Insert(x, s[1..]);
      InsertAscending(x, s[1..]);
      forall k | 0 <= k < |rest| ensures s[0] <= rest[k] {
        assert rest[k] in multiset(rest);
        if rest[k] != x {
          assert rest[k] in multiset(s[1..]);
          var j :| 0 <= j < |s[1..]| && s[1..][j] == rest[k];
          assert s[0] <= s[j + 1];
        }
      }
      assert Insert(x, s) == [s[0]] + rest;
    }
  }

  /** The elements of `s` in ascending order. */
  function Sort(s: seq<int>): (r: seq<int>)
    ensures |r| == |s|
    ensures multiset(r) == multiset(s)
    ensures Ascending(r)
  {
    if s == [] then []
    else
      assert s == [s[0]] + s[1..];
      var rest := Sort(s[1..]);
      InsertAscending(s[0], rest);
      Insert(s[0], rest)
  }

  /** Sorting a list that is already ascending leaves it unchanged. */
  lemma {:induction false} SortAscending(s: seq<int>)
    requires Ascending(s)
    ensures Sort(s) == s
  {
    if s != [] {
      assert Ascending(s[1..]);
      SortAscending(s[1..]);
      assert s == [s[0]] + s[1..];
    }
  }

  /** Sorting a roll gives a combination of the same dice. */
  lemma SortRoll(t: seq<int>, dice: nat, faces: int)
    requires IsRoll(t, dice, faces)
    ensures IsCombination(Sort(t), dice, faces)
  {
    var r := Sort(t);
    forall i | 0 <= i < |r| ensures 1 <= r[i] <= faces {
      assert r[i] in multiset(r);
      assert r[i] in multiset(t);
      var j :| 0 <= j < |t| && t[j] == r[i];
    }
  }

  /** The sum of a roll of `dice` dice lies between `dice` and `dice * faces`. */
  lemma {:induction false} SumBounds(t: seq<int>, dice: nat, faces: int)
    requires IsRoll(t, dice, faces)
    ensures dice <= Sum(t) <= dice * faces
  {
    if dice > 0 {
      var p := t[..dice - 1];
      assert IsRoll(p, dice - 1, faces) by {
        forall i | 0 <= i < |p| ensures 1 <= p[i] <= faces { assert p[i] == t[i]; }
      }
      SumBounds(p, dice - 1, faces);
      assert (dice - 1) * faces + faces == dice * faces;
    }
  }

  // ---------------------------------------------------------------------------
  // Reference enumeration of all combinations
  // ---------------------------------------------------------------------------

  /** Puts `x` in front of every list of `ts`. */
  function Prepend(x: int, ts: seq<seq<int>>): (r: seq<seq<int>>)
    ensures |r| == |ts|
    ensures forall i :: 0 <= i < |ts| ==> r[i] == [x] + ts[i]
  {
    seq(|ts|, i requires 0 <= i < |ts| => [x] + ts[i])
  }

  /**
   * Every ascending list of `dice` values in `[low, faces]`, in lexicographic
   * order: first those that start with `low`, then those that do not.
   */
  function AllCombinations(dice: nat, low: int, faces: int): seq<seq<int>>
    decreases dice, faces - low
  {
    if dice == 0 then [[]]
    else if low > faces then []
    else Prepend(low, AllCombinations(dice - 1, low, faces)) + AllCombinations(dice, low + 1, faces)
  }

  /** Everything the reference enumeration lists is an ascending list of `dice` values in `[low, faces]`. */
  lemma {:induction false} AllCombinationsSound(dice: nat, low: int, faces: int, t: seq<int>)
    requires t in AllCombinations(dice, low, faces)
    ensures |t| == dice && Ascending(t) && Within(t, low, faces)
    decreases dice, faces - low
  {
    if dice > 0 && low <= faces {
      var tails := AllCombinations(dice - 1, low, faces);
      var first := Prepend(low, tails);
      if t in first {
        var i :| 0 <= i < |first| && first[i] == t;
        AllCombinationsSound(dice - 1, low, faces, tails[i]);
        ConsAscending(low, tails[i], faces);
      } else {
        AllCombinationsSound(dice, low + 1, faces, t);
        WithinWiden(t, low, faces);
      }
    }
  }

  /** Putting the least value in front of an ascending list keeps it ascending. */
  lemma ConsAscending(x: int, s: seq<int>, high: int)
    requires Ascending(s) && Within(s, x, high) && x <= high
    ensures Ascending([x] + s) && Within([x] + s, x, high)
  {
  }

  /** Dropping the first value of an ascending list within `[low, high]` leaves one. */
  lemma TailAscending(t: seq<int>, low: int, high: int)
    requires |t| > 0 && Ascending(t) && Within(t, low, high)
    ensures Ascending(t[1..]) && Within(t[1..], low, high)
  {
  }

  /** An ascending list within `[low, high]` that does not start at `low` lies within `[low + 1, high]`. */
  lemma WithinAbove(t: seq<int>, low: int, high: int)
    requires |t| > 0 && Ascending(t) && Within(t, low, high) && t[0] != low
    ensures Within(t, low + 1, high)
  {
    forall i | 0 <= i < |t| ensures low + 1 <= t[i] {
      assert t[0] <= t[i];
    }
  }

  /** Values in `[low + 1, high]` are in `[low, high]`. */
  lemma WithinWiden(s: seq<int>, low: int, high: int)
    requires Within(s, low + 1, high)
    ensures Within(s, low, high)
  {
  }

  /** Every ascending list of `dice` values in `[low, faces]` is listed by the reference enumeration. */
  lemma {:induction false} AllCombinationsComplete(dice: nat, low: int, faces: int, t: seq<int>)
    requires |t| == dice && Ascending(t) && Within(t, low, faces)
    ensures t in AllCombinations(dice, low, faces)
    decreases dice, faces - low
  {
    if dice == 0 {
      assert t == [];
    } else {
      assert low <= t[0] <= faces;
      var tails := AllCombinations(dice - 1, low, faces);
      var first := Prepend(low, tails);
      var rest := AllCombinations(dice, low + 1, faces);
      assert AllCombinations(dice, low, faces) == first + rest;
      if t[0] == low {
        var u := t[1..];
        TailAscending(t, low, faces);
        AllCombinationsComplete(dice - 1, low, faces, u);
        var i :| 0 <= i < |tails| && tails[i] == u;
        assert t == [low] + u;
        assert first[i] == t;
      } else {
        WithinAbove(t, low, faces);
        AllCombinationsComplete(dice, low + 1, faces, t);
      }
    }
  }

  /** Concatenation keeps distinctness when the two parts share nothing. */
  lemma DistinctConcat(a: seq<seq<int>>, b: seq<seq<int>>)
    requires Distinct(a) && Distinct(b)
    requires forall x :: x in a ==> x !in b
    ensures Distinct(a + b)
  {
    var c := a + b;
    forall i, j | 0 <= i < j < |c| ensures c[i] != c[j] {
      if i < |a| && j >= |a| {
        assert c[i] in a && c[j] == b[j - |a|];
      }
    }
  }

  /** The reference enumeration lists no combination twice. */
  lemma {:induction false} AllCombinationsDistinct(dice: nat, low: int, faces: int)
    ensures Distinct(AllCombinations(dice, low, faces))
    decreases dice, faces - low
  {
    if dice > 0 && low <= faces {
      var tails := AllCombinations(dice - 1, low, faces);
      var first := Prepend(low, tails);
      var rest := AllCombinations(dice, low + 1, faces);
      AllCombinationsDistinct(dice - 1, low, faces);
      AllCombinationsDistinct(dice, low + 1, faces);
      forall i, j | 0 <= i < j < |first| ensures first[i] != first[j] {
        assert first[i][1..] == tails[i] && first[j][1..] == tails[j];
      }
      forall x | x in rest ensures |x| == dice && x[0] >= low + 1 {
        AllCombinationsSound(dice, low + 1, faces, x);
      }
      forall x | x in first ensures x[0] == low {
        var i :| 0 <= i < |first| && first[i] == x;
      }
      DistinctConcat(first, rest);
    }
  }

  // ---------------------------------------------------------------------------
  // Counting combinations by their sum
  // ---------------------------------------------------------------------------

  /** How many lists of `u` have sum `s`. */
  function CountWithSum(u: seq<seq<int>>, s: int): nat {
    if u == [] then 0
    else CountWithSum(u[..|u| - 1], s) + (if Sum(u[|u| - 1]) == s then 1 else 0)
  }

  /** The total of `CountWithSum(u, s)` over the sums `s` in `[low, high]`. */
  function CountInRange(u: seq<seq<int>>, low: int, high: int): nat
    decreases high - low
  {
    if high < low then 0 else CountInRange(u, low, high - 1) + CountWithSum(u, high)
  }

  /** The members of `u`, and those of them with sum `s`. */
  function Members(u: seq<seq<int>>): set<seq<int>> {
    set x | x in u
  }

  function Having(u: seq<seq<int>>, s: int): set<seq<int>> {
    set x | x in u && Sum(x) == s
  }

  lemma MembersAppend(v: seq<seq<int>>, y: seq<int>, s: int)
    ensures Members(v + [y]) == Members(v) + {y}
    ensures Having(v + [y], s) == Having(v, s) + (if Sum(y) == s then {y} else {})
  {
    assert forall x :: x in v + [y] <==> x in v || x == y;
  }

  /** For a list without repetitions, counting by sum is the size of the set of members with that sum. */
  lemma {:induction false} CountIsCardinality(u: seq<seq<int>>, s: int)
    requires Distinct(u)
    ensures CountWithSum(u, s) == |Having(u, s)|
    ensures |u| == |Members(u)|
  {
    if u != [] {
      var v, y := u[..|u| - 1], u[|u| - 1];
      assert u == v + [y];
      assert Distinct(v);
      forall k | 0 <= k < |v| ensures v[k] != y {
        assert u[k] == v[k];
      }
      assert y !in Members(v);
      CountIsCardinality(v, s);
      MembersAppend(v, y, s);
    }
  }

  /** Two repetition-free lists with the same members have the same length and the same counts. */
  lemma SameMembersSameCounts(u: seq<seq<int>>, v: seq<seq<int>>, s: int)
    requires Distinct(u) && Distinct(v)
    requires forall x :: x in u <==> x in v
    ensures CountWithSum(u, s) == CountWithSum(v, s)
    ensures |u| == |v|
  {
    CountIsCardinality(u, s);
    CountIsCardinality(v, s);
    assert Having(u, s) == Having(v, s);
    assert Members(u) == Members(v);
  }

  /** Appending one list adds one to the count of its own sum, when that sum is in range. */
  lemma {:induction false} CountInRangeAppend(u: seq<seq<int>>, y: seq<int>, low: int, high: int)
    ensures CountInRange(u + [y], low, high) == CountInRange(u, low, high) + (if low <= Sum(y) <= high then 1 else 0)
    decreases high - low
  {
    assert (u + [y])[..|u|] == u;
    if low <= high {
      CountInRangeAppend(u, y, low, high - 1);
    }
  }

  /** When every sum of `u` lies in `[low, high]`, the counts over that range add up to `|u|`. */
  lemma {:induction false} CountsCoverAll(u: seq<seq<int>>, low: int, high: int)
    requires forall x :: x in u ==> low <= Sum(x) <= high
    ensures CountInRange(u, low, high) == |u|
  {
    if u == [] {
      CountInRangeEmpty(low, high);
    } else {
      var v, y := u[..|u| - 1], u[|u| - 1];
      assert u == v + [y];
      CountsCoverAll(v, low, high);
      CountInRangeAppend(v, y, low, high);
    }
  }

  lemma {:induction false} CountInRangeEmpty(low: int, high: int)
    ensures CountInRange([], low, high) == 0
    decreases high - low
  {
    if low <= high { CountInRangeEmpty(low, high - 1); }
  }

  /** A member with sum `s` makes the count of `s` positive. */
  lemma {:induction false} CountPositive(u: seq<seq<int>>, x: seq<int>, s: int)
    requires x in u && Sum(x) == s
    ensures CountWithSum(u, s) >= 1
  {
    var v := u[..|u| - 1];
    if u[|u| - 1] != x {
      assert u == v + [u[|u| - 1]];
      CountPositive(v, x, s);
    }
  }

  // ---------------------------------------------------------------------------
  // The reference counts
  // ---------------------------------------------------------------------------

  /** The number of combinations of `dice` dice with `faces` faces whose faces add up to `s`. */
  function Frequency(dice: nat, faces: int, s: int): nat {
    CountWithSum(AllCombinations(dice, 1, faces), s)
  }

  /** The number of combinations of `dice` dice with `faces` faces. */
  function NumCombinations(dice: nat, faces: int): nat {
    |AllCombinations(dice, 1, faces)|
  }

  /**
   * A combination with any sum between its least (all ones) and its greatest
   * (all `faces`); its last, largest face is at most `s - dice + 1`.
   */
  lemma {:induction false} Reach(dice: nat, faces: int, s: int) returns (t: seq<int>)
    requires faces >= 1 && dice <= s <= dice * faces
    ensures IsCombination(t, dice, faces) && Sum(t) == s
    ensures dice > 0 ==> t[dice - 1] <= s - dice + 1
  {
    if dice == 0 {
      t := [];
    } else {
      var top := if faces <= s - dice + 1 then faces else s - dice + 1;
      ReachStep(dice, faces, s, top);
      var front := Reach(dice - 1, faces, s - top);
      assert dice > 1 ==> front[dice - 2] <= top;
      t := front + [top];
      AppendLargest(front, top, faces);
    }
  }

  /** Appending a face no smaller than the last one extends an ascending combination. */
  lemma AppendLargest(front: seq<int>, top: int, faces: int)
    requires IsCombination(front, |front|, faces) && 1 <= top <= faces
    requires |front| > 0 ==> front[|front| - 1] <= top
    ensures IsCombination(front + [top], |front| + 1, faces)
    ensures Sum(front + [top]) == Sum(front) + top
  {
    var t := front + [top];
    assert t[..|front|] == front;
    forall i, j | 0 <= i < j < |t| ensures t[i] <= t[j] {
      if j == |front| {
        assert front[i] <= front[|front| - 1];
      }
    }
  }

  /** The arithmetic behind one step of `Reach`: the last face `top` leaves a reachable sum for the others. */
  lemma ReachStep(dice: nat, faces: int, s: int, top: int)
    requires faces >= 1 && 1 <= dice <= s <= dice * faces
    requires top == if faces <= s - dice + 1 then faces else s - dice + 1
    ensures 1 <= top <= faces && top <= s - dice + 1
    ensures dice - 1 <= s - top <= (dice - 1) * faces
    ensures top == faces || s - top == dice - 1
  {
    assert (dice - 1) * faces == dice * faces - faces;
    MulAtLeast(dice - 1, faces);
  }

  /** A product with a positive factor `b` is at least the other factor. */
  lemma MulAtLeast(a: nat, b: int)
    requires b >= 1
    ensures a <= a * b
  {
  }

  /** Every sum from `dice` to `dice * faces` is the sum of some combination. */
  lemma FrequencyPositive(dice: nat, faces: int, s: int)
    requires faces >= 1 && dice <= s <= dice * faces
    ensures Frequency(dice, faces, s) >= 1
  {
    var t := Reach(dice, faces, s);
    AllCombinationsComplete(dice, 1, faces, t);
    CountPositive(AllCombinations(dice, 1, faces), t, s);
  }

  /** There is at least one combination. */
  lemma NumCombinationsPositive(dice: nat, faces: int)
    requires faces >= 1
    ensures NumCombinations(dice, faces) >= 1
  {
    MulAtLeast(dice, faces);
    var t := Reach(dice, faces, dice);
    AllCombinationsComplete(dice, 1, faces, t);
  }

  /** The counts of all sums from `dice` to `dice * faces` add up to the number of combinations. */
  lemma FrequenciesTotal(dice: nat, faces: int)
    requires faces >= 1
    ensures CountInRange(AllCombinations(dice, 1, faces), dice, dice * faces) == NumCombinations(dice, faces)
  {
    var all := AllCombinations(dice, 1, faces);
    forall x | x in all ensures dice <= Sum(x) <= dice * faces {
      AllCombinationsSound(dice, 1, faces, x);
      SumBounds(x, dice, faces);
    }
    CountsCoverAll(all, dice, dice * faces);
  }

  // ---------------------------------------------------------------------------
  // Counting the reference enumeration
  // ---------------------------------------------------------------------------

  /** The sum of a list is its first value plus the sum of the rest. */
  lemma {:induction false} SumCons(x: int, t: seq<int>)
    ensures Sum([x] + t) == x + Sum(t)
  {
    if t != [] {
      assert ([x] + t)[..|t|] == [x] + t[..|t| - 1];
      SumCons(x, t[..|t| - 1]);
    }
  }

  /** Counting over a concatenation adds the counts of the parts. */
  lemma {:induction false} CountConcat(a: seq<seq<int>>, b: seq<seq<int>>, s: int)
    ensures CountWithSum(a + b, s) == CountWithSum(a, s) + CountWithSum(b, s)
  {
    if b != [] {
      assert (a + b)[..|a + b| - 1] == a + b[..|b| - 1];
      assert (a + b)[|a + b| - 1] == b[|b| - 1];
      CountConcat(a, b[..|b| - 1], s);
    } else {
      assert a + b == a;
    }
  }

  /** Putting `x` in front of every list moves each sum up by `x`. */
  lemma {:induction false} CountPrepend(x: int, ts: seq<seq<int>>, s: int)
    ensures CountWithSum(Prepend(x, ts), s) == CountWithSum(ts, s - x)
  {
    if ts != [] {
      var front := ts[..|ts| - 1];
      assert Prepend(x, ts)[..|ts| - 1] == Prepend(x, front);
      CountPrepend(x, front, s);
      SumCons(x, ts[|ts| - 1]);
    }
  }

  /** One die whose faces run from `low` to `faces` is a list of the one-value lists `[low]` to `[faces]`. */
  lemma OneDieStep(low: int, faces: int)
    requires low <= faces
    ensures AllCombinations(1, low, faces) == [[low]] + AllCombinations(1, low + 1, faces)
  {
    assert AllCombinations(0, low, faces) == [[]];
    assert [low] + [] == [low];
    assert Prepend(low, [[]]) == [[low]];
  }

  /** One die whose faces run from `low` to `faces` has one combination per face. */
  lemma {:induction false} OneDieSize(low: int, faces: int)
    ensures |AllCombinations(1, low, faces)| == if low <= faces then faces - low + 1 else 0
    decreases faces - low
  {
    if low <= faces {
      OneDieStep(low, faces);
      OneDieSize(low + 1, faces);
    }
  }

  /** One die whose faces run from `low` to `faces` shows each of those sums exactly once. */
  lemma {:induction false} OneDieCount(low: int, faces: int, s: int)
    ensures CountWithSum(AllCombinations(1, low, faces), s) == if low <= s <= faces then 1 else 0
    decreases faces - low
  {
    if low <= faces {
      OneDieStep(low, faces);
      OneDieCount(low + 1, faces, s);
      CountConcat([[low]], AllCombinations(1, low + 1, faces), s);
      assert CountWithSum([[low]], s) == CountWithSum([], s) + (if Sum([low]) == s then 1 else 0);
      assert Sum([low]) == Sum([]) + low;
    }
  }

  /**
   * Two dice with faces from `low` to `faces`: `m * (m + 1) / 2` ascending
   * pairs for `m` faces.
   */
  lemma {:induction false} TwoDiceCount(low: int, faces: int)
    requires low <= faces + 1
    ensures 2 * |AllCombinations(2, low, faces)| == (faces - low + 1) * (faces - low + 2)
    decreases faces - low
  {
    if low <= faces {
      TwoDiceCount(low + 1, faces);
      OneDieSize(low, faces);
      var m := faces - low + 1;
      assert |AllCombinations(2, low, faces)| == m + |AllCombinations(2, low + 1, faces)|;
      Triangle(m, |AllCombinations(2, low + 1, faces)|);
    }
  }

  /** Adding `m` to the `(m - 1)`-th triangular number gives the `m`-th. */
  lemma Triangle(m: int, t: int)
    requires 2 * t == (m - 1) * m
    ensures 2 * (m + t) == m * (m + 1)
  {
  }

  /** With a face left, the combinations start with the lowest face and go on with the higher ones. */
  lemma AllCombinationsStep(dice: nat, low: int, faces: int)
    requires dice >= 1 && low <= faces
    ensures AllCombinations(dice, low, faces)
         == Prepend(low, AllCombinations(dice - 1, low, faces)) + AllCombinations(dice, low + 1, faces)
  {
  }

  /** The count of sum `s` in lists starting with `x`, followed by others. */
  lemma CountSplit(x: int, ts: seq<seq<int>>, rest: seq<seq<int>>, s: int)
    ensures CountWithSum(Prepend(x, ts) + rest, s) == CountWithSum(ts, s - x) + CountWithSum(rest, s)
  {
    CountConcat(Prepend(x, ts), rest, s);
    CountPrepend(x, ts, s);
  }

  /**
   * The count of sum `s` is the count among the combinations starting with
   * the lowest face, whose other dice add up to `s - low`, plus the count
   * among the combinations starting higher.
   */
  lemma CountStep(dice: nat, low: int, faces: int, s: int)
    requires dice >= 1 && low <= faces
    ensures CountWithSum(AllCombinations(dice, low, faces), s)
         == CountWithSum(AllCombinations(dice - 1, low, faces), s - low) + CountWithSum(AllCombinations(dice, low + 1, faces), s)
  {
    AllCombinationsStep(dice, low, faces);
    CountSplit(low, AllCombinations(dice - 1, low, faces), AllCombinations(dice, low + 1, faces), s);
  }

  /**
   * Two six-faced dice have 21 combinations, and 3 of them, (1, 6), (2, 5)
   * and (3, 4), add up to 7.
   */
  lemma TwoSixFacedDice()
    ensures NumCombinations(2, 6) == 21
    ensures Frequency(2, 6, 7) == 3
  {
    TwoDiceCount(1, 6);
    CountStep(2, 1, 6, 7);
    CountStep(2, 2, 6, 7);
    CountStep(2, 3, 6, 7);
    CountStep(2, 4, 6, 7);
    CountStep(2, 5, 6, 7);
    CountStep(2, 6, 6, 7);
    OneDieCount(1, 6, 6);
    OneDieCount(2, 6, 5);
    OneDieCount(3, 6, 4);
    OneDieCount(4, 6, 3);
    OneDieCount(5, 6, 2);
    OneDieCount(6, 6, 1);
    assert AllCombinations(2, 7, 6) == [];
  }
}
