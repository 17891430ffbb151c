// In which order groups are formed, sorted and placed, and what that leaves in each split.
module SplitterOrder {
  import opened Splitter

  // ----- the sort is stable -----

  // The groups with n members, in order.
  function OfSize(s: seq<Group>, n: nat): seq<Group> {
    if s == [] then []
    else if |s[0].members| == n then [s[0]] + OfSize(s[1..], n)
    else OfSize(s[1..], n)
  }

  lemma {:induction false} InsertIsStable(g: Group, s: seq<Group>, n: nat)
    ensures OfSize(Insert(g, s), n) == OfSize([g] + s, n)
  {
    assert ([g] + s)[1..] == s;
    if s != [] && |g.members| < |s[0].members| {
      InsertIsStable(g, s[1..], n);
      assert ([g] + s[1..])[1..] == s[1..];
      assert ([s[0]] + Insert(g, s[1..]))[1..] == Insert(g, s[1..]);
    }
  }

  // Groups of one size keep the order they had.
  lemma {:induction false} SortIsStable(s: seq<Group>, n: nat)
    ensures OfSize(SortedBySize(s), n) == OfSize(s, n)
  {
    if s != [] {
      SortIsStable(s[1..], n);
      InsertIsStable(s[0], SortedBySize(s[1..]), n);
      var sorted := [s[0]] + SortedBySize(s[1..]);
      assert sorted[1..] == SortedBySize(s[1..]);
    }
  }

  lemma {:induction false} OfSizeOccurs(s: seq<Group>, n: nat)
    requires OfSize(s, n) != []
    ensures exists i | 0 <= i < |s| :: |s[i].members| == n
  {
    if |s[0].members| != n {
      OfSizeOccurs(s[1..], n);
      var i :| 0 <= i < |s| - 1 && |s[1..][i].members| == n;
      assert s[i + 1] == s[1..][i];
    }
  }

  ghost predicate SameBySize(a: seq<Group>, b: seq<Group>) {
    forall n: nat :: OfSize(a, n) == OfSize(b, n)
  }

  lemma FirstIsLargest(a: seq<Group>, b: seq<Group>)
    requires Descending(a) && Descending(b) && SameBySize(a, b) && a != []
    ensures b != [] && b[0] == a[0]
  {
    var m := |a[0].members|;
    assert OfSize(a, m)[0] == a[0];
    assert OfSize(b, m) == OfSize(a, m);
    OfSizeOccurs(b, m);
    var k := |b[0].members|;
    assert OfSize(b, k)[0] == b[0];
    assert OfSize(a, k) == OfSize(b, k);
    OfSizeOccurs(a, k);
  }

  // Sizes in descending order and the groups of each size in their order leave one result.
  lemma {:induction false} StableSortIsUnique(a: seq<Group>, b: seq<Group>)
    requires Descending(a) && Descending(b) && SameBySize(a, b)
    ensures a == b
  {
    if a == [] {
      if b != [] {
        FirstIsLargest(b, a);
      }
    } else {
      FirstIsLargest(a, b);
      forall n: nat
        ensures OfSize(a[1..], n) == OfSize(b[1..], n)
      {
        assert OfSize(a, n) == OfSize(b, n);
        if |a[0].members| == n {
          assert OfSize(a, n)[1..] == OfSize(a[1..], n) && OfSize(b, n)[1..] == OfSize(b[1..], n);
        }
      }
      StableSortIsUnique(a[1..], b[1..]);
      assert a == [a[0]] + a[1..] && b == [b[0]] + b[1..];
    }
  }

  lemma {:induction false} SortedExactlyWhen(s: seq<Group>, t: seq<Group>)
    ensures t == SortedBySize(s) <==> Descending(t) && SameBySize(t, s)
  {
    SortedIsSorted(s);
    forall n: nat
      ensures OfSize(SortedBySize(s), n) == OfSize(s, n)
    {
      SortIsStable(s, n);
    }
    if Descending(t) && SameBySize(t, s) {
      assert SameBySize(t, SortedBySize(s));
      StableSortIsUnique(t, SortedBySize(s));
    }
  }

  lemma {:induction false} Ranked(s: seq<Group>, i: nat, j: nat, n: nat) returns (p: nat, q: nat)
    requires i < j < |s| && |s[i].members| == |s[j].members| == n
    ensures p < q < |OfSize(s, n)| && OfSize(s, n)[p] == s[i] && OfSize(s, n)[q] == s[j]
  {
    if i == 0 {
      p := 0;
      q := Rank(s[1..], j - 1, n);
      q := q + 1;
    } else {
      p, q := Ranked(s[1..], i - 1, j - 1, n);
      if |s[0].members| == n {
        p, q := p + 1, q + 1;
      }
    }
  }

  lemma {:induction false} Rank(s: seq<Group>, j: nat, n: nat) returns (q: nat)
    requires j < |s| && |s[j].members| == n
    ensures q < |OfSize(s, n)| && OfSize(s, n)[q] == s[j]
  {
    if j == 0 {
      q := 0;
    } else {
      q := Rank(s[1..], j - 1, n);
      if |s[0].members| == n {
        q := q + 1;
      }
    }
  }

  lemma {:induction false} Unranked(s: seq<Group>, n: nat, p: nat, q: nat) returns (i: nat, j: nat)
    requires p < q < |OfSize(s, n)|
    ensures i < j < |s| && s[i] == OfSize(s, n)[p] && s[j] == OfSize(s, n)[q]
  {
    if |s[0].members| != n {
      i, j := Unranked(s[1..], n, p, q);
      i, j := i + 1, j + 1;
    } else if p > 0 {
      i, j := Unranked(s[1..], n, p - 1, q - 1);
      i, j := i + 1, j + 1;
    } else {
      i := 0;
      j := UnrankedOne(s[1..], n, q - 1);
      j := j + 1;
    }
  }

  lemma {:induction false} UnrankedOne(s: seq<Group>, n: nat, q: nat) returns (j: nat)
    requires q < |OfSize(s, n)|
    ensures j < |s| && s[j] == OfSize(s, n)[q]
  {
    if |s[0].members| != n {
      j := UnrankedOne(s[1..], n, q);
      j := j + 1;
    } else if q == 0 {
      j := 0;
    } else {
      j := UnrankedOne(s[1..], n, q - 1);
      j := j + 1;
    }
  }

  // The groups as the shuffle leaves them.
  function Shuffled(rows: seq<Row>, shuffle: seq<Group> -> seq<Group>): seq<Group> {
    GroupsWellKept(rows, |rows|);
    shuffle(Items(GroupsOf(rows, |rows|)))
  }

  ghost predicate Precedes(groups: seq<Group>, g: Group, h: Group) {
    exists k, l :: 0 <= k < l < |groups| && groups[k] == g && groups[l] == h
  }

  lemma {:induction false} TiesKeepOrder(s: seq<Group>, i: nat, j: nat)
    requires i < j < |s| && |s[i].members| == |s[j].members|
    ensures Precedes(SortedBySize(s), s[i], s[j])
  {
    var n := |s[i].members|;
    SortIsStable(s, n);
    var p, q := Ranked(s, i, j, n);
    var k, l := Unranked(SortedBySize(s), n, p, q);
  }

  lemma {:induction false} LargerFirst(s: seq<Group>, i: nat, j: nat)
    requires i < |s| && j < |s| && |s[i].members| > |s[j].members|
    ensures Precedes(SortedBySize(s), s[i], s[j])
  {
    SortedIsSorted(s);
    assert s[i] in multiset(s) && s[j] in multiset(s);
    LargerPrecedes(SortedBySize(s), s[i], s[j]);
  }

  lemma LargerPrecedes(groups: seq<Group>, g: Group, h: Group)
    requires Descending(groups) && g in multiset(groups) && h in multiset(groups) && |g.members| > |h.members|
    ensures Precedes(groups, g, h)
  {
    var k :| 0 <= k < |groups| && groups[k] == g;
    var l :| 0 <= l < |groups| && groups[l] == h;
  }

  // Of two groups, the one with more rows is placed first; of two with equally many, the one that the
  // shuffle put first.
  lemma PlacingOrder(rows: seq<Row>, shuffle: seq<Group> -> seq<Group>, i: nat, j: nat)
    requires i < |Shuffled(rows, shuffle)| && j < |Shuffled(rows, shuffle)|
    requires var s := Shuffled(rows, shuffle);
             |s[i].members| > |s[j].members| || (|s[i].members| == |s[j].members| && i < j)
    ensures var s := Shuffled(rows, shuffle);
            Precedes(SplitGroups(rows, shuffle), s[i], s[j])
  {
    var s := Shuffled(rows, shuffle);
    if |s[i].members| > |s[j].members| {
      LargerFirst(s, i, j);
    } else {
      TiesKeepOrder(s, i, j);
    }
  }

  // ----- the groups, in the order of their first rows -----

  // Row i is the same as row j, or has its grounding id.
  predicate Together(rows: seq<Row>, i: nat, j: nat)
    requires i < |rows| && j < |rows|
  {
    i == j || (rows[i].grounding.Some? && rows[i].grounding == rows[j].grounding)
  }

  predicate Rising(pos: seq<nat>, n: nat) {
    (forall x, y | 0 <= x < y < |pos| :: pos[x] < pos[y]) && forall x | 0 <= x < |pos| :: pos[x] < n
  }

  // pos: exactly the first n rows that are together with row first.
  predicate MembersAt(pos: seq<nat>, rows: seq<Row>, n: nat, first: nat)
    requires n <= |rows| && first < n
  {
    Rising(pos, n) && forall i: nat | i < n :: i in pos <==> Together(rows, i, first)
  }

  function RowsAt(rows: seq<Row>, pos: seq<nat>): seq<Row>
    requires forall x | 0 <= x < |pos| :: pos[x] < |rows|
  {
    seq(|pos|, x requires 0 <= x < |pos| => rows[pos[x]])
  }

  // The list holds, in input order, the first n rows that are together with row first.
  ghost predicate IsGroupOf(members: seq<Row>, rows: seq<Row>, n: nat, first: nat)
    requires n <= |rows| && first < n
  {
    exists pos: seq<nat> :: MembersAt(pos, rows, n, first) && members == RowsAt(rows, pos)
  }

  predicate IsFirstRow(rows: seq<Row>, i: nat)
    requires i < |rows|
  {
    forall j: nat | j < i :: !Together(rows, j, i)
  }

  // firsts: exactly those of the first n rows that are together with no earlier one.
  predicate FirstRows(firsts: seq<nat>, rows: seq<Row>, n: nat)
    requires n <= |rows|
  {
    Rising(firsts, n) && forall i: nat | i < n :: i in firsts <==> IsFirstRow(rows, i)
  }

  // The keys stand in the order of the first rows, each with its rows.
  ghost predicate GroupedBy(g: Groups, rows: seq<Row>, n: nat, firsts: seq<nat>)
    requires n <= |rows|
  {
    && FirstRows(firsts, rows, n) && |g.order| == |firsts|
    && forall x | 0 <= x < |firsts| ::
         && g.order[x] == GroupKey(rows[firsts[x]], firsts[x]) && g.order[x] in g.members
         && IsGroupOf(g.members[g.order[x]], rows, n, firsts[x])
  }

  lemma TogetherExactlyWhen(rows: seq<Row>, i: nat, j: nat)
    requires i < |rows| && j < |rows|
    ensures Together(rows, i, j) <==> GroupKey(rows[i], i) == GroupKey(rows[j], j)
  {
    SameGroupExactlyWhen(rows[i], i, rows[j], j);
  }

  lemma MembersOfMore(pos: seq<nat>, rows: seq<Row>, n: nat, first: nat)
    requires n < |rows| && first < n && MembersAt(pos, rows, n, first)
    ensures Together(rows, n, first) ==> IsGroupOf(RowsAt(rows, pos) + [rows[n]], rows, n + 1, first)
    ensures !Together(rows, n, first) ==> IsGroupOf(RowsAt(rows, pos), rows, n + 1, first)
  {
    if Together(rows, n, first) {
      assert n !in pos;
      assert MembersAt(pos + [n], rows, n + 1, first);
      assert RowsAt(rows, pos) + [rows[n]] == RowsAt(rows, pos + [n]);
    } else {
      assert MembersAt(pos, rows, n + 1, first);
    }
  }

  lemma GroupOfMore(members: seq<Row>, rows: seq<Row>, n: nat, first: nat)
    requires n < |rows| && first < n && IsGroupOf(members, rows, n, first)
    ensures IsGroupOf(if Together(rows, n, first) then members + [rows[n]] else members, rows, n + 1, first)
  {
    var pos: seq<nat> :| MembersAt(pos, rows, n, first) && members == RowsAt(rows, pos);
    MembersOfMore(pos, rows, n, first);
  }

  lemma GroupOfFirst(rows: seq<Row>, n: nat)
    requires n < |rows| && IsFirstRow(rows, n)
    ensures IsGroupOf([rows[n]], rows, n + 1, n)
  {
    assert MembersAt([n], rows, n + 1, n);
    assert [rows[n]] == RowsAt(rows, [n]);
  }

  // A row is together with exactly one of the first rows, or is one.
  lemma OneFirstRow(firsts: seq<nat>, rows: seq<Row>, n: nat)
    requires n < |rows| && FirstRows(firsts, rows, n)
    ensures IsFirstRow(rows, n) <==> forall x | 0 <= x < |firsts| :: !Together(rows, n, firsts[x])
    ensures forall x, y | 0 <= x < y < |firsts| :: !Together(rows, firsts[x], firsts[y])
  {
    if !IsFirstRow(rows, n) {
      var j: nat :| j < n && Together(rows, j, n);
      var i := EarliestTogether(rows, j);
      assert i in firsts;
      var x :| 0 <= x < |firsts| && firsts[x] == i;
      assert Together(rows, n, firsts[x]);
    }
    forall x | 0 <= x < |firsts| && Together(rows, n, firsts[x])
      ensures !IsFirstRow(rows, n)
    {
      assert Together(rows, firsts[x], n);
    }
    forall x, y | 0 <= x < y < |firsts|
      ensures !Together(rows, firsts[x], firsts[y])
    {
      assert firsts[y] in firsts;
    }
  }

  lemma {:induction false} EarliestTogether(rows: seq<Row>, j: nat) returns (i: nat)
    requires j < |rows|
    ensures i <= j && Together(rows, i, j) && IsFirstRow(rows, i)
  {
    i := j;
    if !IsFirstRow(rows, j) {
      var k: nat :| k < j && Together(rows, k, j);
      i := EarliestTogether(rows, k);
    }
  }

  lemma KeyMeansTogether(g: Groups, rows: seq<Row>, n: nat, firsts: seq<nat>, x: nat)
    requires n < |rows| && GroupedBy(g, rows, n, firsts) && x < |firsts|
    ensures firsts[x] < n
    ensures g.order[x] == GroupKey(rows[n], n) <==> Together(rows, n, firsts[x])
  {
    TogetherExactlyWhen(rows, n, firsts[x]);
  }

  lemma ListAfterRow(g: Groups, rows: seq<Row>, n: nat, firsts: seq<nat>, x: nat)
    requires n < |rows| && GroupedBy(g, rows, n, firsts) && x < |firsts|
    ensures var after := Add(g, GroupKey(rows[n], n), rows[n]);
            && g.order[x] in after.members
            && IsGroupOf(after.members[g.order[x]], rows, n + 1, firsts[x])
  {
    KeyMeansTogether(g, rows, n, firsts, x);
    assert IsGroupOf(g.members[g.order[x]], rows, n, firsts[x]);
    hide IsGroupOf, GroupKey;
    GroupOfMore(g.members[g.order[x]], rows, n, firsts[x]);
  }

  // The next row has a list: it is appended there.
  lemma RowJoins(g: Groups, rows: seq<Row>, n: nat, firsts: seq<nat>)
    requires n < |rows| && WellKept(g) && GroupedBy(g, rows, n, firsts) && GroupKey(rows[n], n) in g.members
    ensures GroupedBy(Add(g, GroupKey(rows[n], n), rows[n]), rows, n + 1, firsts)
  {
    var key := GroupKey(rows[n], n);
    var z :| 0 <= z < |g.order| && g.order[z] == key;
    KeyMeansTogether(g, rows, n, firsts, z);
    FirstRowsStay(firsts, rows, n, z);
    hide IsGroupOf, GroupKey, Together, FirstRows, IsFirstRow, WellKept;
    var after := Add(g, key, rows[n]);
    assert after.order == g.order;
    forall x | 0 <= x < |firsts|
      ensures g.order[x] in after.members && IsGroupOf(after.members[g.order[x]], rows, n + 1, firsts[x])
    {
      ListAfterRow(g, rows, n, firsts, x);
    }
  }

  lemma FirstRowsStay(firsts: seq<nat>, rows: seq<Row>, n: nat, x: nat)
    requires n < |rows| && FirstRows(firsts, rows, n) && x < |firsts|
    requires firsts[x] < n && Together(rows, n, firsts[x])
    ensures FirstRows(firsts, rows, n + 1)
  {
    OneFirstRow(firsts, rows, n);
  }

  // It has none: it starts one, behind the others.
  lemma RowStarts(g: Groups, rows: seq<Row>, n: nat, firsts: seq<nat>)
    requires n < |rows| && WellKept(g) && GroupedBy(g, rows, n, firsts) && GroupKey(rows[n], n) !in g.members
    ensures GroupedBy(Add(g, GroupKey(rows[n], n), rows[n]), rows, n + 1, firsts + [n])
  {
    var key := GroupKey(rows[n], n);
    var after, more := Add(g, key, rows[n]), firsts + [n];
    forall x | 0 <= x < |firsts|
      ensures !Together(rows, n, firsts[x])
    {
      KeyMeansTogether(g, rows, n, firsts, x);
    }
    OneFirstRow(firsts, rows, n);
    assert n !in firsts;
    forall x | 0 <= x < |more|
      ensures after.order[x] in after.members && IsGroupOf(after.members[after.order[x]], rows, n + 1, more[x])
    {
      if x < |firsts| {
        ListAfterRow(g, rows, n, firsts, x);
      } else {
        GroupOfFirst(rows, n);
      }
    }
  }

  lemma {:induction false} NoGroupsYet(rows: seq<Row>)
    ensures GroupedBy(GroupsOf(rows, 0), rows, 0, [])
  {
  }

  lemma {:induction false} GroupsInOrder(rows: seq<Row>, n: nat) returns (firsts: seq<nat>)
    requires n <= |rows|
    ensures GroupedBy(GroupsOf(rows, n), rows, n, firsts)
  {
    hide GroupedBy, WellKept, GroupKey, Add;
    firsts := [];
    if n == 0 {
      NoGroupsYet(rows);
    } else {
      firsts := GroupsInOrder(rows, n - 1);
      GroupsWellKept(rows, n - 1);
      var g := GroupsOf(rows, n - 1);
      if GroupKey(rows[n - 1], n - 1) in g.members {
        RowJoins(g, rows, n - 1, firsts);
      } else {
        RowStarts(g, rows, n - 1, firsts);
        firsts := firsts + [n - 1];
      }
    }
  }

  // The groups before the shuffle: in the order in which their first rows occur, each with the rows of
  // one grounding id, or a single row without one, in input order.
  lemma {:induction false} ItemsInFirstSeenOrder(rows: seq<Row>)
    ensures WellKept(GroupsOf(rows, |rows|))
    ensures var items := Items(GroupsOf(rows, |rows|));
            exists firsts: seq<nat> ::
              && FirstRows(firsts, rows, |rows|) && |items| == |firsts|
              && forall x | 0 <= x < |items| :: IsGroupOf(items[x].members, rows, |rows|, firsts[x])
  {
    GroupsWellKept(rows, |rows|);
    var firsts := GroupsInOrder(rows, |rows|);
    var items := Items(GroupsOf(rows, |rows|));
    assert FirstRows(firsts, rows, |rows|) && |items| == |firsts|;
  }

  // ----- the placement -----

  // splits is what placing one group greedily leaves: its members behind the first of the splits that
  // were furthest below their share of the n rows.
  ghost predicate PlacedGreedily(w: Weights, n: nat, before: Splits, members: seq<Row>, after: Splits) {
    exists i: nat | i < SPLITS ::
      && (forall j: nat | j < SPLITS :: Lack(w, n, before, j) <= Lack(w, n, before, i))
      && (forall j: nat | j < i :: Lack(w, n, before, j) < Lack(w, n, before, i))
      && after == before[i := before[i] + members]
  }

  function Lack(w: Weights, n: nat, splits: Splits, i: nat): real
    requires i < SPLITS
  {
    w[i] / (w[0] + w[1] + w[2]) * n as real - |splits[i]| as real
  }

  // runs[k]: the splits when k groups are placed.
  ghost predicate IsGreedyRun(w: Weights, n: nat, groups: seq<Group>, runs: seq<Splits>) {
    && |runs| == |groups| + 1 && runs[0] == [[], [], []]
    && forall k | 0 <= k < |groups| :: PlacedGreedily(w, n, runs[k], groups[k].members, runs[k + 1])
  }

  lemma GreedyStep(w: Weights, n: nat, before: Splits, g: Group, after: Splits)
    ensures PlacedGreedily(w, n, before, g.members, after) <==> after == Place(w, n, before, g)
  {
    var best := Furthest(w, n, before);
    assert forall j: nat | j < SPLITS :: Lack(w, n, before, j) == Deficit(w, n, before, j);
    if PlacedGreedily(w, n, before, g.members, after) {
      var i: nat :| i < SPLITS
        && (forall j: nat | j < SPLITS :: Lack(w, n, before, j) <= Lack(w, n, before, i))
        && (forall j: nat | j < i :: Lack(w, n, before, j) < Lack(w, n, before, i))
        && after == before[i := before[i] + g.members];
      assert Lack(w, n, before, best) == Lack(w, n, before, i);
      assert i == best;
    }
  }

  lemma {:induction false} GreedyRunIsPlacement(w: Weights, n: nat, groups: seq<Group>, runs: seq<Splits>, k: nat)
    requires IsGreedyRun(w, n, groups, runs) && k <= |groups|
    ensures runs[k] == PlaceAll(w, n, groups, k)
  {
    hide PlacedGreedily, Place;
    if k > 0 {
      GreedyRunIsPlacement(w, n, groups, runs, k - 1);
      assert PlacedGreedily(w, n, runs[k - 1], groups[k - 1].members, runs[k - 1 + 1]);
      GreedyStep(w, n, runs[k - 1], groups[k - 1], runs[k]);
    }
  }

  lemma {:induction false} NextIsGreedy(w: Weights, n: nat, groups: seq<Group>, k: nat)
    requires k < |groups|
    ensures PlacedGreedily(w, n, PlaceAll(w, n, groups, k), groups[k].members, PlaceAll(w, n, groups, k + 1))
  {
    hide PlacedGreedily, Place;
    GreedyStep(w, n, PlaceAll(w, n, groups, k), groups[k], PlaceAll(w, n, groups, k + 1));
  }

  lemma {:induction false} NothingYet(w: Weights, n: nat, groups: seq<Group>)
    ensures PlaceAll(w, n, groups, 0) == [[], [], []]
  {
  }

  lemma GreedyRunExists(w: Weights, n: nat, groups: seq<Group>) returns (runs: seq<Splits>)
    ensures IsGreedyRun(w, n, groups, runs)
  {
    hide PlacedGreedily, PlaceAll;
    NothingYet(w, n, groups);
    runs := seq(|groups| + 1, k requires 0 <= k <= |groups| => PlaceAll(w, n, groups, k));
    forall k | 0 <= k < |groups|
      ensures PlacedGreedily(w, n, runs[k], groups[k].members, runs[k + 1])
    {
      NextIsGreedy(w, n, groups, k);
    }
  }

  // There is exactly one way to place the groups greedily one after the other, and the splits are what
  // it ends with.
  lemma {:induction false} SplitIsTheGreedyRun(rows: seq<Row>, w: Weights, shuffle: seq<Group> -> seq<Group>,
      splits: Splits)
    ensures var groups := SplitGroups(rows, shuffle);
            splits == SplitSpec(rows, w, shuffle) <==>
            exists runs: seq<Splits> :: IsGreedyRun(w, |rows|, groups, runs) && splits == runs[|groups|]
  {
    hide PlacedGreedily, SplitGroups, PlaceAll;
    var groups, n := SplitGroups(rows, shuffle), |rows|;
    var runs := GreedyRunExists(w, n, groups);
    GreedyRunIsPlacement(w, n, groups, runs, |groups|);
    if other: seq<Splits> :| IsGreedyRun(w, n, groups, other) && splits == other[|groups|] {
      GreedyRunIsPlacement(w, n, groups, other, |groups|);
    }
  }
}
