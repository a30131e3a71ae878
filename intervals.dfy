/**
 * The interval dictionary of dice_simulation.py: each sum owns the
 * half-open range `[lower, upper)` of draws between the cumulative
 * probability of the sum before it and its own.  A Python dictionary keeps
 * its keys in insertion order and overwrites the value of a key it already
 * holds, so it is modelled as a list of entries with `Put` doing exactly that.
 */
module Intervals {
  import opened Wrappers
  import opened Combinations
  import opened Probabilities

  /** One entry: the key `(lower, upper)` and the sum it maps to. */
  datatype Interval = Interval(lower: real, upper: real, sum: int)

  /** The dictionary's entries in insertion order. */
  type IntervalTable = seq<Interval>

  /** The draw `r` lies in the half-open range of `e`. */
  predicate Contains(e: Interval, r: real) {
    e.lower <= r < e.upper
  }

  /** The entries `a` and `b` have the same key. */
  predicate SameKey(a: Interval, b: Interval) {
    a.lower == b.lower && a.upper == b.upper
  }

  /** No two entries of `table` share a key. */
  predicate DistinctKeys(table: IntervalTable) {
    forall i, j :: 0 <= i < j < |table| ==> !SameKey(table[i], table[j])
  }

  /** The position of the entry whose key is that of `e`, if there is one. */
  function KeyIndex(table: IntervalTable, e: Interval): (r: Option<nat>)
    ensures r.Some? ==> r.value < |table| && SameKey(table[r.value], e)
    ensures r.None? ==> forall i :: 0 <= i < |table| ==> !SameKey(table[i], e)
  {
    if table == [] then None
    else if SameKey(table[0], e) then Some(0)
    else match KeyIndex(table[1..], e)
      case None => None
      case Some(j) => Some(j + 1)
  }

  /**
   * Python's `d[key] = value`: the entry with the key of `e` takes its sum
   * in place, and a new key goes at the end.
   */
  function Put(table: IntervalTable, e: Interval): (r: IntervalTable)
    ensures e in r
    ensures |r| == |table| + (if KeyIndex(table, e).Some? then 0 else 1)
    ensures forall i :: 0 <= i < |table| && !SameKey(table[i], e) ==> r[i] == table[i]
  {
    match KeyIndex(table, e)
    case Some(i) => assert table[i := e][i] == e; table[i := e]
    case None => table + [e]
  }

  /** The dictionary after putting the entries of `es` one by one into an empty one. */
  function PutAll(es: IntervalTable): IntervalTable {
    if es == [] then [] else Put(PutAll(es[..|es| - 1]), es[|es| - 1])
  }

  /** The lower end of the range of entry `i` of a cumulative table. */
  function Lower(cumulative: Table, i: nat): real
    requires i < |cumulative|
  {
    if i == 0 then 0.0 else cumulative[i - 1].1
  }

  /** The entries the formatting loop puts, one per entry of the cumulative table. */
  function Bounds(cumulative: Table): (r: IntervalTable)
    ensures |r| == |cumulative|
  {
    seq(|cumulative|, i requires 0 <= i < |cumulative| =>
      Interval(Lower(cumulative, i), cumulative[i].1, cumulative[i].0))
  }

  /** The interval dictionary built from a cumulative table. */
  function IntervalDict(cumulative: Table): IntervalTable {
    PutAll(Bounds(cumulative))
  }

  /** dice_simulation.py:140-171: builds the interval dictionary, carrying the lower end from entry to entry. */
  method FormatProbabilities(cumulative: Table) returns (table: IntervalTable)
    ensures table == IntervalDict(cumulative)
  {
    var lower := 0.0;
    table := [];
    ghost var bounds := Bounds(cumulative);
    for i := 0 to |cumulative|
      invariant lower == if i == 0 then 0.0 else cumulative[i - 1].1
      invariant table == PutAll(bounds[..i])
    {
      var upper := cumulative[i].1;
      var sum := cumulative[i].0;
      assert bounds[..i + 1][..i] == bounds[..i];
      table := Put(table, Interval(lower, upper, sum));
      lower := upper;
    }
    assert bounds[..|cumulative|] == bounds;
  }

  /** The sum of the first entry whose range holds `r`, or `None` when none does. */
  function Lookup(table: IntervalTable, r: real): Option<int> {
    if table == [] then None
    else if Contains(table[0], r) then Some(table[0].sum)
    else Lookup(table[1..], r)
  }

  /** dice_simulation.py:173-188: turns the draw `r` into a sum by scanning the dictionary in order. */
  method RollDice(table: IntervalTable, r: real) returns (sum: Option<int>)
    ensures sum == Lookup(table, r)
  {
    for i := 0 to |table|
      invariant Lookup(table[i..], r) == Lookup(table, r)
    {
      assert table[i..][1..] == table[i + 1..];
      if r >= table[i].lower && r < table[i].upper {
        return Some(table[i].sum);
      }
    }
    assert table[|table|..] == [];
    return None;
  }

  // ---------------------------------------------------------------------------
  // Properties of the lookup
  // ---------------------------------------------------------------------------

  /** The lookup answers with the first entry whose range holds the draw. */
  lemma {:induction false} LookupFirst(table: IntervalTable, r: real, i: nat)
    requires i < |table| && Contains(table[i], r)
    requires forall j :: 0 <= j < i ==> !Contains(table[j], r)
    ensures Lookup(table, r) == Some(table[i].sum)
  {
    if i > 0 {
      LookupFirst(table[1..], r, i - 1);
    }
  }

  /** The lookup finds nothing exactly when no range holds the draw. */
  lemma {:induction false} LookupNone(table: IntervalTable, r: real)
    ensures Lookup(table, r).None? <==> forall i :: 0 <= i < |table| ==> !Contains(table[i], r)
  {
    if table != [] {
      LookupNone(table[1..], r);
      assert forall i :: 1 <= i < |table| ==> table[i] == table[1..][i - 1];
    }
  }

  /** A sum the lookup answers comes from an entry whose range holds the draw. */
  lemma {:induction false} LookupSound(table: IntervalTable, r: real)
    requires Lookup(table, r).Some?
    ensures exists i :: 0 <= i < |table| && Contains(table[i], r) && table[i].sum == Lookup(table, r).value
  {
    if !Contains(table[0], r) {
      LookupSound(table[1..], r);
      var i :| 0 <= i < |table[1..]| && Contains(table[1..][i], r) && table[1..][i].sum == Lookup(table, r).value;
      assert table[i + 1] == table[1..][i];
    }
  }

  // ---------------------------------------------------------------------------
  // Properties of the dictionary
  // ---------------------------------------------------------------------------

  /** Putting entries with distinct keys into an empty dictionary keeps them as they are, in order. */
  lemma {:induction false} PutAllDistinct(es: IntervalTable)
    requires DistinctKeys(es)
    ensures PutAll(es) == es
  {
    if es != [] {
      var front := es[..|es| - 1];
      assert DistinctKeys(front);
      PutAllDistinct(front);
      forall i | 0 <= i < |front| ensures !SameKey(front[i], es[|es| - 1]) {
        assert front[i] == es[i];
      }
      assert es == front + [es[|es| - 1]];
    }
  }

  /** The running totals of a table increase strictly from entry to entry. */
  predicate Rising(cumulative: Table) {
    forall i, j :: 0 <= i < j < |cumulative| ==> cumulative[i].1 < cumulative[j].1
  }

  /** Strictly rising upper ends give distinct keys, so the dictionary is the list of bounds. */
  lemma IntervalDictIsBounds(cumulative: Table)
    requires Rising(cumulative)
    ensures IntervalDict(cumulative) == Bounds(cumulative)
  {
    var b := Bounds(cumulative);
    forall i, j | 0 <= i < j < |b| ensures !SameKey(b[i], b[j]) {
      assert b[i].upper == cumulative[i].1 && b[j].upper == cumulative[j].1;
    }
    PutAllDistinct(b);
  }

  /**
   * With strictly rising totals there is one interval per entry: the first
   * starts at zero, each later one starts where the one before ends, and
   * each ends at its entry's running total and maps to its entry's sum.
   */
  lemma IntervalDictShape(cumulative: Table)
    requires Rising(cumulative)
    ensures var d := IntervalDict(cumulative);
      && |d| == |cumulative|
      && (|d| > 0 ==> d[0].lower == 0.0)
      && (forall i :: 0 < i < |d| ==> d[i].lower == d[i - 1].upper)
      && (forall i :: 0 <= i < |d| ==> d[i].upper == cumulative[i].1 && d[i].sum == cumulative[i].0)
  {
    IntervalDictIsBounds(cumulative);
  }

  /** With rising totals, a draw in the range of entry `i` lies in no other entry's range. */
  lemma TileDisjoint(cumulative: Table, r: real, i: nat)
    requires Rising(cumulative) && i < |cumulative|
    requires Lower(cumulative, i) <= r < cumulative[i].1
    ensures forall j :: 0 <= j < |cumulative| && j != i ==> !Contains(Bounds(cumulative)[j], r)
  {
    var b := Bounds(cumulative);
    forall j | 0 <= j < |cumulative| && j != i ensures !Contains(b[j], r) {
      if j < i {
        assert b[j].upper == cumulative[j].1;
        assert j < i - 1 ==> cumulative[j].1 < cumulative[i - 1].1;
      } else {
        assert b[j].lower == cumulative[j - 1].1;
        assert i < j - 1 ==> cumulative[i].1 < cumulative[j - 1].1;
      }
    }
  }

  /** With rising totals, a draw in the range of entry `i` gives the sum of entry `i`. */
  lemma BoundsLookup(cumulative: Table, r: real, i: nat)
    requires Rising(cumulative) && i < |cumulative| && Contains(Bounds(cumulative)[i], r)
    ensures Lookup(Bounds(cumulative), r) == Some(cumulative[i].0)
  {
    TileDisjoint(cumulative, r, i);
    LookupFirst(Bounds(cumulative), r, i);
  }

  /** With rising totals and the sums `low`, `low + 1`, ... in order, a draw gives `s` exactly when it lies in the range of `s`. */
  lemma BoundsRoll(cumulative: Table, low: int, r: real, s: int)
    requires Rising(cumulative) && forall i :: 0 <= i < |cumulative| ==> cumulative[i].0 == low + i
    ensures Lookup(Bounds(cumulative), r) == Some(s)
        <==> low <= s < low + |cumulative| && Lower(cumulative, s - low) <= r < cumulative[s - low].1
  {
    var b := Bounds(cumulative);
    if Lookup(b, r) == Some(s) {
      LookupSound(b, r);
      var i :| 0 <= i < |b| && Contains(b[i], r) && b[i].sum == s;
      assert cumulative[i].0 == low + i;
    }
    if low <= s < low + |cumulative| && Lower(cumulative, s - low) <= r < cumulative[s - low].1 {
      BoundsLookup(cumulative, r, s - low);
    }
  }

  /** With rising totals from a positive first, the ranges cover `[0, last)` exactly. */
  lemma {:induction false} TileCover(cumulative: Table, r: real)
    requires Rising(cumulative) && |cumulative| > 0 && cumulative[0].1 > 0.0
    ensures (exists i :: 0 <= i < |cumulative| && Contains(Bounds(cumulative)[i], r))
        <==> 0.0 <= r < cumulative[|cumulative| - 1].1
  {
    var b := Bounds(cumulative);
    var last := |cumulative| - 1;
    if 0.0 <= r < cumulative[last].1 {
      var i := FirstAbove(cumulative, r);
      assert Contains(b[i], r);
    } else {
      forall i | 0 <= i < |cumulative| ensures !Contains(b[i], r) {
        if i > 0 {
          assert cumulative[0].1 <= cumulative[i - 1].1;
        }
        assert i < last ==> cumulative[i].1 < cumulative[last].1;
      }
    }
  }

  /** The first entry whose running total exceeds `r`, when the last one does. */
  lemma FirstAbove(cumulative: Table, r: real) returns (i: nat)
    requires |cumulative| > 0 && 0.0 <= r < cumulative[|cumulative| - 1].1
    ensures i < |cumulative| && r < cumulative[i].1 && Lower(cumulative, i) <= r
  {
    i := 0;
    while r >= cumulative[i].1
      invariant i < |cumulative| && Lower(cumulative, i) <= r
      decreases |cumulative| - i
    {
      i := i + 1;
    }
  }

  // ---------------------------------------------------------------------------
  // The dictionary of the dice
  // ---------------------------------------------------------------------------

  /** The interval dictionary the simulator builds for `dice` dice with `faces` faces. */
  function DiceTable(dice: nat, faces: int): IntervalTable
    requires dice >= 1 && faces >= 1
  {
    IntervalDict(Cumulate(ProbTable(dice, faces)))
  }

  /** The dice's dictionary is the list of bounds of their cumulative table, whose totals rise strictly. */
  lemma DiceTableIsBounds(dice: nat, faces: int)
    requires dice >= 1 && faces >= 1
    ensures Rising(Cumulate(ProbTable(dice, faces)))
    ensures DiceTable(dice, faces) == Bounds(Cumulate(ProbTable(dice, faces)))
  {
    CumulativeTable(dice, faces);
    IntervalDictIsBounds(Cumulate(ProbTable(dice, faces)));
  }

  /** The range of sum `s` in the dice's cumulative table runs from the share at most `s - 1` to the share at most `s`. */
  lemma DiceRange(dice: nat, faces: int, s: int)
    requires dice >= 1 && faces >= 1 && dice <= s <= dice * faces
    ensures s - dice < |Cumulate(ProbTable(dice, faces))|
    ensures Lower(Cumulate(ProbTable(dice, faces)), s - dice) == AtMost(dice, faces, s - 1)
    ensures Cumulate(ProbTable(dice, faces))[s - dice].1 == AtMost(dice, faces, s)
  {
    var i := s - dice;
    ProbTableSums(dice, faces);
    CumulativeShare(dice, faces, i);
    if i == 0 {
      AtMostEnds(dice, faces);
    } else {
      CumulativeShare(dice, faces, i - 1);
    }
  }

  /**
   * The simulator's roll: a draw `r` gives the sum `s` exactly when `s` is
   * a sum of the dice and `r` lies between the share of combinations with a
   * sum below `s` and the share with a sum at most `s`.
   */
  lemma DiceRoll(dice: nat, faces: int, r: real, s: int)
    requires dice >= 1 && faces >= 1
    ensures Lookup(DiceTable(dice, faces), r) == Some(s)
        <==> dice <= s <= dice * faces && AtMost(dice, faces, s - 1) <= r < AtMost(dice, faces, s)
  {
    var c := Cumulate(ProbTable(dice, faces));
    CumulativeTable(dice, faces);
    DiceTableIsBounds(dice, faces);
    BoundsRoll(c, dice, r, s);
    if dice <= s <= dice * faces {
      DiceRange(dice, faces, s);
    }
  }

  /** Every draw in `[0, 1)`, the range of Python's `random.random()`, gives a sum of the dice, and no other draw gives one. */
  lemma DiceRollDefined(dice: nat, faces: int, r: real)
    requires dice >= 1 && faces >= 1
    ensures Lookup(DiceTable(dice, faces), r).Some? <==> 0.0 <= r < 1.0
    ensures Lookup(DiceTable(dice, faces), r).Some? ==> dice <= Lookup(DiceTable(dice, faces), r).value <= dice * faces
  {
    var t, c := DiceTable(dice, faces), Cumulate(ProbTable(dice, faces));
    CumulativeTable(dice, faces);
    DiceTableIsBounds(dice, faces);
    LookupNone(t, r);
    TileCover(c, r);
    if t != [] && Lookup(t, r).Some? {
      BoundsRoll(c, dice, r, Lookup(t, r).value);
    }
  }
}
