// How far the three splits end from their exact targets.
module SplitterBalance {
  import opened Splitter

  function Sizes(groups: seq<Group>, k: nat): nat
    requires k <= |groups|
  {
    if k == 0 then 0 else Sizes(groups, k - 1) + |groups[k - 1].members|
  }

  function DeficitAt(w: Weights, groups: seq<Group>, k: nat, i: nat): real
    requires k <= |groups| && i < SPLITS
  {
    Deficit(w, Sizes(groups, |groups|), PlaceAll(w, Sizes(groups, |groups|), groups, k), i)
  }

  function ChosenAt(w: Weights, groups: seq<Group>, k: nat): (best: nat)
    requires k < |groups|
    ensures best < SPLITS
  {
    Furthest(w, Sizes(groups, |groups|), PlaceAll(w, Sizes(groups, |groups|), groups, k))
  }

  lemma SharesAddUp(a: real, b: real, c: real, n: real)
    requires a + b + c > 0.0
    ensures a / (a + b + c) * n + b / (a + b + c) * n + c / (a + b + c) * n == n
  {
    var s := a + b + c;
    var x, y, z := a / s, b / s, c / s;
    assert x * s == a && y * s == b && z * s == c;
    Distribute(x, y, z, s);
    Cancel(x + y + z, 1.0, s);
    Distribute(x, y, z, n);
  }

  lemma Cancel(x: real, y: real, s: real)
    requires s > 0.0 && x * s == y * s
    ensures x == y
  {
    assert x == x * s / s && y == y * s / s;
  }

  lemma Distribute(x: real, y: real, z: real, n: real)
    ensures (x + y + z) * n == x * n + y * n + z * n
  {
  }

  lemma ShareSign(a: real, s: real, n: real)
    requires s > 0.0 && a >= 0.0 && n >= 0.0
    ensures a / s * n >= 0.0
    ensures a == 0.0 ==> a / s * n == 0.0
  {
  }

  // The deficits sum up to the rows still to be placed.
  lemma {:induction false} DeficitsAddUp(w: Weights, groups: seq<Group>, k: nat)
    requires k <= |groups|
    ensures DeficitAt(w, groups, k, 0) + DeficitAt(w, groups, k, 1) + DeficitAt(w, groups, k, 2)
            == (Sizes(groups, |groups|) - Sizes(groups, k)) as real
  {
    if k == 0 {
      DeficitsAtStart(w, groups);
    } else {
      hide DeficitAt, ChosenAt;
      DeficitsAddUp(w, groups, k - 1);
      DeficitAfterPlace(w, groups, k - 1);
      assert Sizes(groups, k) == Sizes(groups, k - 1) + |groups[k - 1].members|;
    }
  }

  lemma {:induction false} DeficitIsTarget(w: Weights, groups: seq<Group>, i: nat)
    requires i < SPLITS
    ensures DeficitAt(w, groups, 0, i) == Target(w, Sizes(groups, |groups|), i)
  {
    hide Target;
    assert |PlaceAll(w, Sizes(groups, |groups|), groups, 0)[i]| == 0;
  }

  lemma TargetsAddUp(w: Weights, n: nat)
    ensures Target(w, n, 0) + Target(w, n, 1) + Target(w, n, 2) == n as real
  {
    SharesAddUp(w[0], w[1], w[2], n as real);
  }

  lemma {:induction false} DeficitsAtStart(w: Weights, groups: seq<Group>)
    ensures DeficitAt(w, groups, 0, 0) + DeficitAt(w, groups, 0, 1) + DeficitAt(w, groups, 0, 2)
            == Sizes(groups, |groups|) as real
  {
    hide DeficitAt, Target;
    DeficitIsTarget(w, groups, 0);
    DeficitIsTarget(w, groups, 1);
    DeficitIsTarget(w, groups, 2);
    TargetsAddUp(w, Sizes(groups, |groups|));
  }

  // Placing a group lowers one deficit, a greatest one, by the group's size.
  lemma DeficitAfterPlace(w: Weights, groups: seq<Group>, k: nat)
    requires k < |groups|
    ensures forall i: nat | i < SPLITS ::
              DeficitAt(w, groups, k + 1, i) ==
              DeficitAt(w, groups, k, i) - (if i == ChosenAt(w, groups, k) then |groups[k].members| as real else 0.0)
    ensures forall i: nat | i < SPLITS :: DeficitAt(w, groups, k, i) <= DeficitAt(w, groups, k, ChosenAt(w, groups, k))
  {
    var n := Sizes(groups, |groups|);
    var splits := PlaceAll(w, n, groups, k);
    var best := Furthest(w, n, splits);
    assert PlaceAll(w, n, groups, k + 1) == splits[best := splits[best] + groups[k].members];
    assert |splits[best] + groups[k].members| as real == |splits[best]| as real + |groups[k].members| as real;
  }

  lemma {:induction false} SizesGrow(groups: seq<Group>, k: nat, m: nat)
    requires k <= m <= |groups|
    ensures Sizes(groups, k) <= Sizes(groups, m)
  {
    if k < m {
      SizesGrow(groups, k, m - 1);
    }
  }

  // The split that is furthest below lacks at least a third of what remains.
  lemma {:induction false} ChosenLacksAThird(w: Weights, groups: seq<Group>, k: nat)
    requires k < |groups|
    ensures DeficitAt(w, groups, k, ChosenAt(w, groups, k))
            >= (Sizes(groups, |groups|) - Sizes(groups, k)) as real / 3.0
    ensures Sizes(groups, |groups|) - Sizes(groups, k) >= |groups[k].members|
  {
    DeficitsAddUp(w, groups, k);
    DeficitAfterPlace(w, groups, k);
    SizesGrow(groups, k + 1, |groups|);
    var best := ChosenAt(w, groups, k);
    assert DeficitAt(w, groups, k, 0) <= DeficitAt(w, groups, k, best);
    assert DeficitAt(w, groups, k, 1) <= DeficitAt(w, groups, k, best);
    assert DeficitAt(w, groups, k, 2) <= DeficitAt(w, groups, k, best);
  }

  // Size of the last group that split i received among the first k.
  function LastReceived(w: Weights, groups: seq<Group>, k: nat, i: nat): nat
    requires k <= |groups| && i < SPLITS
  {
    if k == 0 then 0
    else if ChosenAt(w, groups, k - 1) == i then |groups[k - 1].members|
    else LastReceived(w, groups, k - 1, i)
  }

  ghost predicate SizesAtMost(groups: seq<Group>, largest: nat) {
    forall k | 0 <= k < |groups| :: |groups[k].members| <= largest
  }

  lemma DeficitAtStart(w: Weights, groups: seq<Group>, i: nat)
    requires i < SPLITS
    ensures DeficitAt(w, groups, 0, i) >= 0.0
  {
    ShareSign(w[i], w[0] + w[1] + w[2], Sizes(groups, |groups|) as real);
  }

  // At every moment a split is above its target by at most two thirds of the last group it got.
  lemma {:induction false} OvershootBound(w: Weights, groups: seq<Group>, k: nat, i: nat)
    requires k <= |groups| && i < SPLITS
    ensures DeficitAt(w, groups, k, i) >= -2.0 / 3.0 * LastReceived(w, groups, k, i) as real
  {
    hide DeficitAt, ChosenAt;
    if k == 0 {
      DeficitAtStart(w, groups, i);
    } else {
      OvershootBound(w, groups, k - 1, i);
      DeficitAfterPlace(w, groups, k - 1);
      ChosenLacksAThird(w, groups, k - 1);
    }
  }

  lemma {:induction false} LastReceivedAtMost(w: Weights, groups: seq<Group>, k: nat, i: nat, largest: nat)
    requires k <= |groups| && i < SPLITS && SizesAtMost(groups, largest)
    ensures LastReceived(w, groups, k, i) <= largest
  {
    if k > 0 {
      LastReceivedAtMost(w, groups, k - 1, i, largest);
    }
  }

  // For any group sizes and weights: at the end every split is at most two thirds of its last group
  // above its target, and at most four thirds of the largest group below it.
  lemma {:induction false} ImbalanceBound(w: Weights, groups: seq<Group>, i: nat, largest: nat)
    requires i < SPLITS && SizesAtMost(groups, largest)
    ensures var d := DeficitAt(w, groups, |groups|, i);
            -2.0 / 3.0 * LastReceived(w, groups, |groups|, i) as real <= d <= 4.0 / 3.0 * largest as real
  {
    hide DeficitAt, LastReceived, SizesAtMost;
    DeficitsAddUp(w, groups, |groups|);
    forall j: nat | j < SPLITS
      ensures DeficitAt(w, groups, |groups|, j) >= -2.0 / 3.0 * largest as real
    {
      OvershootBound(w, groups, |groups|, j);
      LastReceivedAtMost(w, groups, |groups|, j, largest);
    }
    OvershootBound(w, groups, |groups|, i);
    assert DeficitAt(w, groups, |groups|, 0) >= -2.0 / 3.0 * largest as real;
    assert DeficitAt(w, groups, |groups|, 1) >= -2.0 / 3.0 * largest as real;
    assert DeficitAt(w, groups, |groups|, 2) >= -2.0 / 3.0 * largest as real;
  }

  // A split of weight zero gets nothing.
  lemma {:induction false} ZeroWeightStaysEmpty(w: Weights, groups: seq<Group>, k: nat, i: nat)
    requires k <= |groups| && i < SPLITS && w[i] == 0.0
    requires forall g | g in groups :: g.members != []
    ensures PlaceAll(w, Sizes(groups, |groups|), groups, k)[i] == []
  {
    if k > 0 {
      ZeroWeightStaysEmpty(w, groups, k - 1, i);
      ShareSign(w[i], w[0] + w[1] + w[2], Sizes(groups, |groups|) as real);
      assert DeficitAt(w, groups, k - 1, i) == 0.0;
      hide DeficitAt, Sizes;
      ChosenLacksAThird(w, groups, k - 1);
      assert groups[k - 1] in groups;
      assert ChosenAt(w, groups, k - 1) != i;
    }
  }

  // ----- many singletons: within two thirds of a row above, and four thirds below -----

  function Singles(groups: seq<Group>, k: nat): nat
    requires k <= |groups|
  {
    if k == 0 then 0 else Singles(groups, k - 1) + (if |groups[k - 1].members| == 1 then 1 else 0)
  }

  lemma {:induction false} SinglesAreRows(groups: seq<Group>, k: nat, m: nat)
    requires k <= m <= |groups|
    ensures Sizes(groups, m) - Sizes(groups, k) >= Singles(groups, m) - Singles(groups, k)
  {
    if k < m {
      SinglesAreRows(groups, k, m - 1);
    }
  }

  lemma {:induction false} NoSinglesBefore(groups: seq<Group>, k: nat)
    requires k <= |groups| && Descending(groups) && (k > 0 ==> |groups[k - 1].members| >= 2)
    ensures Singles(groups, k) == 0
  {
    if k > 1 {
      assert |groups[k - 2].members| >= |groups[k - 1].members|;
      NoSinglesBefore(groups, k - 1);
    } else if k == 1 {
      assert Singles(groups, 0) == 0;
    }
  }

  // Largest first, a group of two or more rows is placed while the singletons all remain: too many
  // rows are left for it to overshoot.
  lemma {:induction false} SortedOvershoot(w: Weights, groups: seq<Group>, k: nat, i: nat, largest: nat)
    requires k <= |groups| && i < SPLITS && SizesAtMost(groups, largest) && Descending(groups)
    requires Singles(groups, |groups|) >= 2 * largest
    ensures DeficitAt(w, groups, k, i) >= -2.0 / 3.0
  {
    hide DeficitAt, ChosenAt;
    if k == 0 {
      DeficitAtStart(w, groups, i);
    } else {
      SortedOvershoot(w, groups, k - 1, i, largest);
      DeficitAfterPlace(w, groups, k - 1);
      ChosenLacksAThird(w, groups, k - 1);
      var size := |groups[k - 1].members|;
      if size >= 2 {
        NoSinglesBefore(groups, k);
        SinglesAreRows(groups, k, |groups|);
        assert Sizes(groups, |groups|) - Sizes(groups, k - 1) >= 3 * size;
      }
    }
  }

  // With at least 2G groups of one row, G the largest size, every split ends at most 2/3 row above
  // and at most 4/3 rows below its exact target.
  lemma {:induction false} SortedImbalanceBound(w: Weights, groups: seq<Group>, i: nat, largest: nat)
    requires i < SPLITS && SizesAtMost(groups, largest) && Descending(groups)
    requires Singles(groups, |groups|) >= 2 * largest
    ensures -2.0 / 3.0 <= DeficitAt(w, groups, |groups|, i) <= 4.0 / 3.0
  {
    hide DeficitAt, SizesAtMost, Descending, Singles;
    DeficitsAddUp(w, groups, |groups|);
    SortedOvershoot(w, groups, |groups|, 0, largest);
    SortedOvershoot(w, groups, |groups|, 1, largest);
    SortedOvershoot(w, groups, |groups|, 2, largest);
  }

  lemma {:induction false} SizesCountRows(groups: seq<Group>, k: nat)
    requires k <= |groups|
    ensures |RowsOf(groups[..k])| == Sizes(groups, k)
  {
    if k == 0 {
      assert groups[..0] == [];
    } else {
      SizesCountRows(groups, k - 1);
      assert groups[..k] == groups[..k - 1] + [groups[k - 1]];
      RowsOfSum(groups[..k - 1], [groups[k - 1]]);
      assert [groups[k - 1]][1..] == [];
    }
  }

  // The bounds, for what split_dataset computes on any rows, weights and shuffle.
  lemma SplitIsBalanced(rows: seq<Row>, w: Weights, shuffle: seq<Group> -> seq<Group>, i: nat,
      largest: nat)
    requires Shuffles(shuffle) && i < SPLITS && SizesAtMost(SplitGroups(rows, shuffle), largest)
    ensures var d := w[i] / (w[0] + w[1] + w[2]) * |rows| as real - |SplitSpec(rows, w, shuffle)[i]| as real;
            && -2.0 / 3.0 * largest as real <= d <= 4.0 / 3.0 * largest as real
            && (Singles(SplitGroups(rows, shuffle), |SplitGroups(rows, shuffle)|) >= 2 * largest
                ==> -2.0 / 3.0 <= d <= 4.0 / 3.0)
    ensures w[i] == 0.0 ==> SplitSpec(rows, w, shuffle)[i] == []
  {
    var groups := SplitGroups(rows, shuffle);
    var n := |groups|;
    SplitGroupsProper(rows, shuffle);
    AllRowsAreSized(rows, shuffle);
    assert DeficitAt(w, groups, n, i) == Deficit(w, |rows|, SplitSpec(rows, w, shuffle), i);
    ImbalanceBound(w, groups, i, largest);
    LastReceivedAtMost(w, groups, n, i, largest);
    if Singles(groups, n) >= 2 * largest {
      SortedImbalanceBound(w, groups, i, largest);
    }
    if w[i] == 0.0 {
      ZeroWeightStaysEmpty(w, groups, n, i);
    }
  }

  lemma AllRowsAreSized(rows: seq<Row>, shuffle: seq<Group> -> seq<Group>)
    requires Shuffles(shuffle)
    ensures Sizes(SplitGroups(rows, shuffle), |SplitGroups(rows, shuffle)|) == |rows|
  {
    var groups := SplitGroups(rows, shuffle);
    GroupsWellKept(rows, |rows|);
    var items := Items(GroupsOf(rows, |rows|));
    SortedIsSorted(shuffle(items));
    RowsOfPermutation(groups, items);
    RowsOfGroups(rows, |rows|);
    SizesCountRows(groups, |groups|);
    assert groups[..|groups|] == groups && rows[..|rows|] == rows;
  }
}
